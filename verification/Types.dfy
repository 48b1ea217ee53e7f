/**
 The values that travel between the ledger, the registry, fork choice and storage.

 SHA-256 is modelled by free terms: a `Hash` is the preimage it was computed from, so two
 hashes are equal exactly when their preimages are, and no hash contains itself.
 Records and states are generic in the digest type, so that the byte codec can use the
 same datatypes with 32-byte strings.
 */
module Types {
  import opened Wrappers
  import opened Bytes

  const NETWORK_ID: bytes := [0x63, 0x68, 0x61, 0x69, 0x6E, 0x62, 0x72, 0x65, 0x61, 0x6B, 0x65, 0x72, 0x2D,
                              0x73, 0x63, 0x72, 0x69, 0x70, 0x74, 0x75, 0x72, 0x65, 0x2D, 0x76, 0x32]
  const PROTOCOL_VERSION := 2
  const GOVERNANCE_SCHEMA_VERSION := 1

  datatype Hash =
    | Raw(raw: bytes)
    | RegistryRoot(state: RegistryState<Hash>)
    | Txid(tx: GovernanceTx)
    | SigningHash(networkId: bytes, body: GovernanceTx)
    | ObjectHash(transaction: Transaction)
    | PairHash(left: Hash, right: Hash)
    | HeaderHash(header: Header)

  /** "0" * 64 in the source. */
  const ZERO_HASH: Hash := Raw(Zeros(32))

  /** Curator ids are kept as their UTF-8 bytes, the form they are sorted by. */
  datatype CuratorRecord<D> = CuratorRecord(
    curatorId: bytes,
    publicKey: bytes,
    activation: nat,
    revocation: Option<nat>,
    previousKey: Option<bytes>,
    registrationTxid: D,
    latestRotationTxid: Option<D>)

  datatype RegistryState<D> = RegistryState(
    records: seq<CuratorRecord<D>>,
    governanceVersion: nat,
    networkId: bytes,
    governanceKeys: seq<bytes>,
    threshold: nat)

  datatype Signature = Signature(keyIndex: nat, sig: bytes)

  datatype GovernanceTx = GovernanceTx(
    curatorId: bytes,
    publicKey: bytes,
    previousRoot: Hash,
    networkId: bytes,
    signatures: seq<Signature>,
    action: Action)

  datatype Action =
    | Register(activation: nat, metadata: Option<bytes>)
    | Rotate(newPublicKey: bytes, activation: nat, metadata: Option<bytes>, curatorSignature: bytes)
    | Revoke(revocation: nat, reason: bytes, curatorSignature: bytes)

  /** A block transaction: anything but a registry mutation, a mutation whose body does not parse, or one that does. */
  datatype Transaction =
    | Other(content: bytes)
    | MalformedGovernance(content: bytes)
    | Governance(tx: GovernanceTx)

  datatype Header = Header(
    version: nat,
    prevHash: Hash,
    merkleRoot: Hash,
    registryRoot: Hash,
    timestamp: int,
    target: nat,
    nonce: nat)

  datatype Block = Block(header: Header, transactions: seq<Transaction>)

  function BlockHash(b: Block): Hash {
    HeaderHash(b.header)
  }

  /** How many headers lie below a hash. */
  function PrevDepth(h: Hash): nat
    decreases h
  {
    match h
    case HeaderHash(header) => 1 + PrevDepth(header.prevHash)
    case _ => 0
  }

  function Max(a: nat, b: nat): (r: nat) { if a < b then b else a }

  function Depth(h: Hash): nat
    decreases h
  {
    match h
    case RegistryRoot(s) => 1 + RecordsDepth(s.records)
    case Txid(tx) => 1 + Depth(tx.previousRoot)
    case _ => 0
  }

  function RecordsDepth(rs: seq<CuratorRecord<Hash>>): nat
    decreases rs
  {
    if rs == [] then 0 else Max(RecordDepth(rs[0]), RecordsDepth(rs[1..]))
  }

  function RecordDepth(r: CuratorRecord<Hash>): nat
    decreases r
  {
    Max(Depth(r.registrationTxid), match r.latestRotationTxid case None => 0 case Some(t) => Depth(t))
  }
}
