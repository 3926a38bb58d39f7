/**
 Replication schemes, the payloads they store and the per-object commit record
 (the sidecar). Reed-Solomon and MD5 are taken as ideal: a fragment is the symbolic
 term naming what it encodes, a digest is the symbolic term naming what it hashes.
 */
module Records {
  import Lex

  newtype byte = x: int | 0 <= x < 256
  type Bytes = seq<byte>

  datatype Option<+T> = None | Some(value: T)

  datatype Scheme = RF25 | RF3 | EC(k: nat, m: nat)

  predicate ValidScheme(s: Scheme) {
    s.EC? ==> s.k >= 1 && s.m >= 1
  }

  /** Number of physical targets the scheme places. */
  function Copies(s: Scheme): nat {
    if s.EC? then s.k + s.m else 3
  }

  /** Number of targets holding a complete copy of the object. */
  function FullReplicas(s: Scheme): (n: nat)
    ensures n <= Copies(s)
  {
    match s
    case RF25 => 2
    case RF3 => 3
    case EC(_, _) => 0
  }

  /** Number of targets that must be durable before a write is acknowledged. */
  function WriteQuorum(s: Scheme): (n: nat)
    ensures n <= Copies(s)
  {
    if s.EC? then s.k + s.m else 2
  }

  /** Exact payload size of fragment `i` of an object of `n` bytes. */
  function PlannedSize(s: Scheme, n: nat, i: nat): nat
    requires ValidScheme(s)
  {
    match s
    case RF3 => n
    case RF25 => if i == 2 then (n + 1) / 2 else n
    case EC(k, _) => (n + k - 1) / k
  }

  /** What a fragment file holds. `Other` is any byte string that is not a fragment
      of a committed object: a torn or rotten copy, known only by its length. */
  datatype Payload =
    | Replica(content: Bytes)
    | Parity(content: Bytes)
    | Shard(k: nat, m: nat, content: Bytes, index: nat)
    | Other(size: nat)

  function Piece(s: Scheme, content: Bytes, i: nat): Payload {
    match s
    case RF3 => Replica(content)
    case RF25 => if i == 2 then Parity(content) else Replica(content)
    case EC(k, m) => Shard(k, m, content, i)
  }

  function SizeOf(p: Payload): nat {
    match p
    case Replica(c) => |c|
    case Parity(c) => (|c| + 1) / 2
    case Shard(k, m, c, _) => if k == 0 then 0 else (|c| + k - 1) / k
    case Other(n) => n
  }

  /** Every piece has exactly the size the plan announces for its index. */
  lemma PieceSize(s: Scheme, content: Bytes, i: nat)
    requires ValidScheme(s)
    ensures SizeOf(Piece(s, content, i)) == PlannedSize(s, |content|, i)
  {
  }

  /** Hex MD5 of a content, or the empty string of a record that carries none. */
  datatype Digest = NoDigest | Md5(content: Bytes)

  datatype ETag = OfContent(digest: Digest) | Given(text: string)

  /** The commit record. `attrs` stands for the S3 header fields, tags and ACL. */
  datatype Sidecar = Sidecar(
    scheme: Scheme,
    size: nat,
    gen: string,
    seqNo: int,
    modified: int,
    etag: ETag,
    checksum: Digest,
    attrs: string)

  /** This record is newer than the other: sequence number, then time, then generation. */
  predicate Supersedes(a: Sidecar, b: Sidecar) {
    if a.seqNo != b.seqNo then a.seqNo > b.seqNo
    else if a.modified != b.modified then a.modified > b.modified
    else Lex.Less(b.gen, a.gen)
  }

  /** The three ordering fields: two records with equal stamps are not ordered. */
  function Stamp(a: Sidecar): (int, int, string) {
    (a.seqNo, a.modified, a.gen)
  }

  lemma SupersedesTotal(a: Sidecar, b: Sidecar)
    ensures Supersedes(a, b) || Supersedes(b, a) || Stamp(a) == Stamp(b)
    ensures !(Supersedes(a, b) && Supersedes(b, a))
    ensures Stamp(a) == Stamp(b) ==> !Supersedes(a, b)
  {
    Lex.Total(a.gen, b.gen);
    Lex.Irreflexive(a.gen);
    if Lex.Less(a.gen, b.gen) { Lex.Asymmetric(a.gen, b.gen); }
    if Lex.Less(b.gen, a.gen) { Lex.Asymmetric(b.gen, a.gen); }
  }

  lemma SupersedesTransitive(a: Sidecar, b: Sidecar, c: Sidecar)
    requires Supersedes(a, b) && Supersedes(b, c)
    ensures Supersedes(a, c)
  {
    if Lex.Less(b.gen, a.gen) && Lex.Less(c.gen, b.gen) { Lex.Transitive(c.gen, b.gen, a.gen); }
  }

  /** `a` is at least as new as `b`. */
  predicate Dominates(a: Sidecar, b: Sidecar) {
    !Supersedes(b, a)
  }

  lemma DominatesTransitive(a: Sidecar, b: Sidecar, c: Sidecar)
    requires Dominates(a, b) && Dominates(b, c)
    ensures Dominates(a, c)
  {
    SupersedesTotal(a, b);
    SupersedesTotal(b, c);
    if Supersedes(c, a) {
      if Supersedes(a, b) { SupersedesTransitive(c, a, b); }
      else if Supersedes(b, c) { SupersedesTransitive(b, c, a); }
    }
  }

  lemma SupersedesDominated(a: Sidecar, b: Sidecar, c: Sidecar)
    requires Supersedes(a, b) && Dominates(b, c)
    ensures Supersedes(a, c)
  {
    SupersedesTotal(b, c);
    if Supersedes(b, c) { SupersedesTransitive(a, b, c); }
  }
}
