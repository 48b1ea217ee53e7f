/** The block record on disk and the HEAD line: what recovery reads back. */
module Formats {
  import opened Wrappers
  import opened Bytes

  // ---------- block records ----------

  const BLOCK_MAGIC: bytes := [0x43, 0x42, 0x42, 0x32]
  const BLOCK_VERSION := 2
  const HEADER_LEN := 149
  const MAX_TX_COUNT := 10_000
  const MAX_BODY_LEN := 64 * 1024 * 1024
  const MIN_LEN := 4 + 4 + 4 + HEADER_LEN + 1 + 8 + 4 + 32 + 4

  /** A header of 149 bytes, the number of transactions and their text. */
  datatype Stored = Stored(header: bytes, count: nat, body: bytes)

  predicate Fits(r: Stored) {
    |r.header| == HEADER_LEN && r.count <= MAX_TX_COUNT && |r.body| <= MAX_BODY_LEN
  }

  function Opening(): (r: bytes)
    ensures |r| == 12
  {
    BLOCK_MAGIC + LE(BLOCK_VERSION, 4) + LE(HEADER_LEN, 4)
  }

  function BodyPrefix(r: Stored): (p: bytes)
    ensures |p| == 12
  {
    LE(|r.body|, 8) + LE(r.count, 4)
  }

  function Record(r: Stored, sha2: Digest32): bytes {
    Opening() + r.header + [0x00] + BodyPrefix(r) + r.body + sha2(BodyPrefix(r) + r.body) + Zeros(4)
  }

  function EncodeBlockRecord(r: Stored, sha2: Digest32): Option<bytes> {
    if !Fits(r) then None else Some(Record(r, sha2))
  }

  /** `readable` says whether the header codec and the JSON reader take a header and a body with that many entries. */
  function DecodeBlockRecord(d: bytes, sha2: Digest32, readable: Stored -> bool): Option<Stored> {
    if |d| < MIN_LEN then None
    else if d[..4] != BLOCK_MAGIC || FromLE(d[4..8]) != BLOCK_VERSION || FromLE(d[8..12]) != HEADER_LEN then None
    else if d[161] != 0x00 then None
    else
      var n, count := FromLE(d[162..170]), FromLE(d[170..174]);
      if n > MAX_BODY_LEN || count > MAX_TX_COUNT || |d| != MIN_LEN + n then None
      else
        var r := Stored(d[12..161], count, d[174..174 + n]);
        if d[174 + n..206 + n] != sha2(LE(n, 8) + LE(count, 4) + r.body) then None
        else if d[206 + n..] != Zeros(4) then None
        else if !readable(r) then None
        else Some(r)
  }

  lemma {:induction false} SmallNumbers()
    ensures MAX_BODY_LEN < Pow256(8) && MAX_TX_COUNT < Pow256(4) && BLOCK_VERSION < Pow256(4) && HEADER_LEN < Pow256(4)
  {
    Pow256Values();
  }

  /** Where the seven parts of a record lie. */
  lemma {:induction false} SevenParts(d: bytes, opening: bytes, header: bytes, prefix: bytes, body: bytes,
                                      check: bytes, tail: bytes)
    requires |opening| == 12 && |header| == HEADER_LEN && |prefix| == 12 && |check| == 32 && |tail| == 4
    ensures d == opening + header + [0x00] + prefix + body + check + tail
            <==> && |d| == MIN_LEN + |body|
                 && d[..12] == opening && d[12..161] == header && d[161] == 0x00 && d[162..174] == prefix
                 && d[174..174 + |body|] == body && d[174 + |body|..206 + |body|] == check && d[206 + |body|..] == tail
  {
    var n := |body|;
    if |d| == MIN_LEN + n {
      assert d == d[..12] + d[12..161] + [d[161]] + d[162..174] + d[174..174 + n] + d[174 + n..206 + n] + d[206 + n..];
    }
  }

  lemma {:induction false} OpeningParts(d: bytes)
    requires |d| >= 12
    ensures d[..12] == Opening()
            <==> d[..4] == BLOCK_MAGIC && FromLE(d[4..8]) == BLOCK_VERSION && FromLE(d[8..12]) == HEADER_LEN
  {
    SmallNumbers();
    LittleEndianRoundTrip(BLOCK_VERSION, 4);
    LittleEndianRoundTrip(HEADER_LEN, 4);
    LittleEndianReencode(d[4..8]);
    LittleEndianReencode(d[8..12]);
    ThreeParts(d, BLOCK_MAGIC, LE(BLOCK_VERSION, 4), LE(HEADER_LEN, 4));
  }

  lemma {:induction false} ThreeParts(d: bytes, a: bytes, b: bytes, c: bytes)
    requires |d| >= 12 && |a| == |b| == |c| == 4
    ensures d[..12] == a + b + c <==> d[..4] == a && d[4..8] == b && d[8..12] == c
  {
    var e := a + b + c;
    assert e[..4] == a && e[4..8] == b && e[8..12] == c;
    assert d[..12][..4] == d[..4] && d[..12][4..8] == d[4..8] && d[..12][8..12] == d[8..12];
    assert d[..12] == d[..4] + d[4..8] + d[8..12];
  }

  lemma {:induction false} PrefixParts(d: bytes, r: Stored)
    requires |d| >= 174 && Fits(r)
    ensures d[162..174] == BodyPrefix(r) <==> FromLE(d[162..170]) == |r.body| && FromLE(d[170..174]) == r.count
  {
    SmallNumbers();
    LittleEndianRoundTrip(|r.body|, 8);
    LittleEndianRoundTrip(r.count, 4);
    LittleEndianReencode(d[162..170]);
    LittleEndianReencode(d[170..174]);
    TwoParts(d, LE(|r.body|, 8), LE(r.count, 4));
  }

  lemma {:induction false} TwoParts(d: bytes, a: bytes, b: bytes)
    requires |d| >= 174 && |a| == 8 && |b| == 4
    ensures d[162..174] == a + b <==> d[162..170] == a && d[170..174] == b
  {
    var e, f := a + b, d[162..174];
    assert e[..8] == a && e[8..] == b;
    assert f[..8] == d[162..170] && f[8..] == d[170..174];
    assert f == d[162..170] + d[170..174];
  }

  /** Decoding accepts exactly what encoding writes, and gives it back. */
  lemma {:induction false} DecodeInvertsEncode(d: bytes, r: Stored, sha2: Digest32, readable: Stored -> bool)
    ensures DecodeBlockRecord(d, sha2, readable) == Some(r) <==> EncodeBlockRecord(r, sha2) == Some(d) && readable(r)
  {
    if Fits(r) {
      SevenParts(d, Opening(), r.header, BodyPrefix(r), r.body, sha2(BodyPrefix(r) + r.body), Zeros(4));
      if |d| >= MIN_LEN {
        OpeningParts(d);
        PrefixParts(d, r);
      }
    }
  }

  /** A record cut short or followed by anything does not decode. */
  lemma {:induction false} RecordsAreExact(d: bytes, more: bytes, sha2: Digest32, readable: Stored -> bool)
    requires DecodeBlockRecord(d, sha2, readable).Some? && DecodeBlockRecord(d + more, sha2, readable).Some?
    ensures more == []
  {
    var e := d + more;
    assert e[162..170] == d[162..170];
  }

  // ---------- HEAD ----------

  datatype Head = Head(height: nat, blockHash: string, networkId: string, genesisHash: string, formatVersion: nat)

  predicate Digit(c: char) { '0' <= c <= '9' }

  predicate AllDigits(s: string) {
    forall i :: 0 <= i < |s| ==> Digit(s[i])
  }

  predicate LowerHex(s: string) {
    |s| == 64 && forall i :: 0 <= i < |s| ==> Digit(s[i]) || 'a' <= s[i] <= 'f'
  }

  predicate Blank(c: char) { c in " \t\n\r" }

  function Decimal(n: nat): (s: string) {
    (if n < 10 then "" else Decimal(n / 10)) + [(n % 10) as char + '0']
  }

  function Nulls(k: nat): (r: string)
    ensures |r| == k
  {
    seq(k, _ => '0')
  }

  function Padded(n: nat, width: nat): string {
    var s := Decimal(n);
    if |s| < width then Nulls(width - |s|) + s else s
  }

  function Value(s: string): nat {
    if s == "" then 0 else 10 * Value(s[..|s| - 1]) + if Digit(s[|s| - 1]) then (s[|s| - 1] - '0') as nat else 0
  }

  /** Python's int() on plain digits; `lenient` covers the signs, blanks and underscores it also takes. */
  function ParseInt(s: string, lenient: string -> Option<nat>): Option<nat> {
    if s != "" && AllDigits(s) then Some(Value(s)) else lenient(s)
  }

  function Strip(s: string): string
    decreases |s|
  {
    if s != "" && Blank(s[0]) then Strip(s[1..])
    else if s != "" && Blank(s[|s| - 1]) then Strip(s[..|s| - 1])
    else s
  }

  /** Python's split at ':'. */
  function Split(s: string): (r: seq<string>)
    ensures r != []
  {
    if s == "" then [""]
    else
      var rest := Split(s[1..]);
      if s[0] == ':' then [""] + rest else [[s[0]] + rest[0]] + rest[1..]
  }

  function EncodeHead(h: Head): Option<string> {
    if |h.blockHash| != 64 || |h.genesisHash| != 64 then None
    else Some(Line(h) + "\n")
  }

  function Line(h: Head): string {
    Padded(h.height, 20) + ":"
      + (h.blockHash + ":" + (h.networkId + ":" + (h.genesisHash + ":" + Decimal(h.formatVersion))))
  }

  function DecodeHead(text: string, lenient: string -> Option<nat>): Option<Head> {
    var parts := Split(Strip(text));
    if |parts| != 5 then None
    else
      match (ParseInt(parts[0], lenient), ParseInt(parts[4], lenient))
      case (Some(height), Some(version)) =>
        if LowerHex(parts[1]) && LowerHex(parts[3])
        then Some(Head(height, parts[1], parts[2], parts[3], version)) else None
      case _ => None
  }

  lemma {:induction false} DecimalReadsBack(n: nat)
    ensures Decimal(n) != "" && AllDigits(Decimal(n)) && Value(Decimal(n)) == n
  {
    if n >= 10 {
      DecimalReadsBack(n / 10);
    }
    var s := Decimal(n);
    assert s[..|s| - 1] == if n < 10 then "" else Decimal(n / 10);
  }

  lemma {:induction false} NullsInFront(k: nat, s: string)
    requires s != "" && AllDigits(s)
    ensures AllDigits(Nulls(k) + s) && Value(Nulls(k) + s) == Value(s)
    decreases |s|
  {
    var z := Nulls(k) + s;
    assert z[..|z| - 1] == Nulls(k) + s[..|s| - 1];
    if |s| > 1 {
      NullsInFront(k, s[..|s| - 1]);
    } else {
      assert s[..0] == "" && Nulls(k) + "" == Nulls(k);
      NullsAreZero(k);
    }
  }

  lemma {:induction false} NullsAreZero(k: nat)
    ensures Value(Nulls(k)) == 0
  {
    if k > 0 {
      assert Nulls(k)[..k - 1] == Nulls(k - 1);
      NullsAreZero(k - 1);
    }
  }

  lemma {:induction false} PaddedReadsBack(n: nat, width: nat)
    ensures Padded(n, width) != "" && AllDigits(Padded(n, width)) && Value(Padded(n, width)) == n
  {
    DecimalReadsBack(n);
    if |Decimal(n)| < width {
      NullsInFront(width - |Decimal(n)|, Decimal(n));
    }
  }

  lemma {:induction false} SplitAtFirst(a: string, rest: string)
    requires ':' !in a
    ensures Split(a + ":" + rest) == [a] + Split(rest)
  {
    var s := a + ":" + rest;
    if a == "" {
      assert s[1..] == rest;
    } else {
      assert s[1..] == a[1..] + ":" + rest;
      SplitAtFirst(a[1..], rest);
      assert [a[0]] + a[1..] == a;
    }
  }

  lemma {:induction false} SplitWhole(a: string)
    requires ':' !in a
    ensures Split(a) == [a]
  {
    if a != "" {
      SplitWhole(a[1..]);
      assert [a[0]] + a[1..] == a;
    }
  }

  /** Any further ':' makes one more piece. */
  lemma {:induction false} SplitCounts(a: string, rest: string)
    ensures |Split(a + ":" + rest)| >= 1 + |Split(rest)|
    ensures ':' in a ==> |Split(a + ":" + rest)| > 1 + |Split(rest)|
  {
    var s := a + ":" + rest;
    if a == "" {
      assert s[1..] == rest;
    } else {
      assert s[1..] == a[1..] + ":" + rest;
      SplitCounts(a[1..], rest);
      assert ':' in a ==> a[0] == ':' || ':' in a[1..];
    }
  }

  lemma {:induction false} NewlineComesOff(line: string)
    requires line != "" && Digit(line[0]) && Digit(line[|line| - 1])
    ensures Strip(line + "\n") == line
  {
    var s := line + "\n";
    assert s[..|s| - 1] == line;
    assert !Blank(s[0]) && Blank(s[|s| - 1]);
    assert Strip(line) == line;
  }

  lemma {:induction false} LineEnds(h: Head)
    ensures var l := Line(h); l != "" && Digit(l[0]) && Digit(l[|l| - 1])
  {
    PaddedReadsBack(h.height, 20);
    DecimalReadsBack(h.formatVersion);
    var l, v := Line(h), Decimal(h.formatVersion);
    assert l[|l| - 1] == v[|v| - 1];
  }

  lemma {:induction false} FiveFields(a: string, b: string, c: string, d: string, e: string)
    requires ':' !in a && ':' !in b && ':' !in c && ':' !in d && ':' !in e
    ensures Split(a + ":" + (b + ":" + (c + ":" + (d + ":" + e)))) == [a, b, c, d, e]
  {
    SplitWhole(e);
    SplitAtFirst(d, e);
    SplitAtFirst(c, d + ":" + e);
    SplitAtFirst(b, c + ":" + (d + ":" + e));
    SplitAtFirst(a, b + ":" + (c + ":" + (d + ":" + e)));
  }

  lemma {:induction false} MoreThanFive(a: string, b: string, c: string, d: string, e: string)
    requires ':' in b || ':' in c || ':' in d
    ensures |Split(a + ":" + (b + ":" + (c + ":" + (d + ":" + e))))| > 5
  {
    SplitCounts(d, e);
    SplitCounts(c, d + ":" + e);
    SplitCounts(b, c + ":" + (d + ":" + e));
    SplitCounts(a, b + ":" + (c + ":" + (d + ":" + e)));
  }

  lemma {:induction false} LineFields(h: Head)
    ensures if ':' !in h.blockHash && ':' !in h.networkId && ':' !in h.genesisHash
            then Split(Line(h))
                 == [Padded(h.height, 20), h.blockHash, h.networkId, h.genesisHash, Decimal(h.formatVersion)]
            else |Split(Line(h))| > 5
  {
    PaddedReadsBack(h.height, 20);
    DecimalReadsBack(h.formatVersion);
    if ':' !in h.blockHash && ':' !in h.networkId && ':' !in h.genesisHash {
      FiveFields(Padded(h.height, 20), h.blockHash, h.networkId, h.genesisHash, Decimal(h.formatVersion));
    } else {
      MoreThanFive(Padded(h.height, 20), h.blockHash, h.networkId, h.genesisHash, Decimal(h.formatVersion));
    }
  }

  /** HEAD reads back as written exactly when both hashes are lower-case hex and the network id has no ':'. */
  lemma {:induction false} HeadRoundTrip(h: Head, lenient: string -> Option<nat>)
    requires EncodeHead(h).Some?
    ensures DecodeHead(EncodeHead(h).value, lenient) == Some(h)
            <==> LowerHex(h.blockHash) && LowerHex(h.genesisHash) && ':' !in h.networkId
    ensures DecodeHead(EncodeHead(h).value, lenient) in {None, Some(h)}
  {
    LineEnds(h);
    NewlineComesOff(Line(h));
    LineFields(h);
    PaddedReadsBack(h.height, 20);
    DecimalReadsBack(h.formatVersion);
  }
}
