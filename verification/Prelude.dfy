/** Vocabulary shared by every module: bytes, digests, validated paths and the
    ways a request can be refused. */
module Prelude {
  type byte = b: int | 0 <= b < 256

  type Bytes = seq<byte>

  /** A SHA-256 digest, as the 32 bytes that its 64 hexadecimal digits spell. */
  type Digest = d: Bytes | |d| == 32 witness seq(32, _ => 0)

  /** SHA-256 itself. Nothing is known about it beyond its type; where a result
      needs two different byte strings to have different digests, it says so. */
  const Sha256: Bytes -> Digest

  /** Two byte strings on which SHA-256 does not collide. */
  ghost predicate NoCollision(a: Bytes, b: Bytes) {
    Sha256(a) == Sha256(b) ==> a == b
  }

  function EmptySha256(): Digest {
    Sha256([])
  }

  const SLASH: byte := 47

  /** A workspace path as its UTF-8 bytes: not empty, free of NUL, not rooted. */
  type Path = p: Bytes | |p| > 0 && p[0] != SLASH && 0 !in p witness [97]

  /** The order of Python strings, which is the order of their UTF-8 bytes. */
  predicate Less(a: Bytes, b: Bytes) {
    b != [] && (a == [] || a[0] < b[0] || (a[0] == b[0] && Less(a[1..], b[1..])))
  }

  lemma {:induction false} LessIsTransitive(a: Bytes, b: Bytes, c: Bytes)
    requires Less(a, b) && Less(b, c)
    ensures Less(a, c)
  {
    if a != [] && a[0] == b[0] == c[0] {
      LessIsTransitive(a[1..], b[1..], c[1..]);
    }
  }

  lemma {:induction false} LessIsTotal(a: Bytes, b: Bytes)
    ensures Less(a, b) || Less(b, a) || a == b
    ensures !(Less(a, b) && Less(b, a))
    ensures Less(a, b) ==> a != b
  {
    if a != [] && b != [] && a[0] == b[0] {
      LessIsTotal(a[1..], b[1..]);
      assert a == [a[0]] + a[1..] && b == [b[0]] + b[1..];
    }
  }

  /** `p.startswith(directory + '/')`. */
  predicate Below(p: Path, directory: Path) {
    |p| > |directory| && p[..|directory|] == directory && p[|directory|] == SLASH
  }

  /** Identifiers of hosts, sessions, attachments, holds and mutations. */
  type Id = Bytes

  datatype Option<+T> = None | Some(value: T) {
    function GetOr(default: T): T {
      if Some? then value else default
    }
  }

  /** The codes a handler refuses a request with. */
  datatype Fault =
    | BlockMissing
    | BlockSizeMetadata
    | BlockSizeMismatch
    | BlockShaMismatch
    | TreeInvalid
    | TreeClosureUnavailable
    | MaterializationTooLarge
    | DescriptorInvalid
    | FileTooLarge
    | BlocksInvalid
    | BlockDuplicate
    | BlockConflict
    | OperationUnsupported
    | OpsInvalid
    | UnsafePath
    | DigestInvalid
    | InlineInvalid
    | InlineMismatch
    | DirectoryDeleteUnsupported
    | IdempotencyConflict
    | WriteForbidden
    | Crash
    | HoldInvalid
    | HoldBindingStale
    | HoldIdentityConflict
    | HoldExpired
    | HoldVersionStale
    | HoldLimit
    | FileNotFound
    | BlockNotReferenced
    | LeaseTooShort
    | TtlInvalid
    | SeedInvalid
    | BlocksFailed
    | MutationBaseInvalid
    | MutationBaseDiverged
    | RequestDigestInvalid
    | PathConflict
    | RenameSamePath
    | LegacyRename
    | BlocksNotVerified
    | ManifestUnavailable
    | HostIdInvalid
    | AlgorithmUnsupported
    | SignatureInvalid
    | RateLimited
    | HeaderInvalid
    | TimestampOutOfRange
    | HostRevoked
    | HostGenerationStale
    | DeploymentMismatch
    | SequenceReplayed
    | PermissionInvalid
    | SessionNotFound
    | BadRequest
    | AttachmentConflict
    | WorkspaceNotFound
    | HostTransitionConflict
    | AppSupervisionInvalid
    | CommandLeaseLost
    | CompletionInvalid
    | CommandNotFound

  datatype Result<+T> = Ok(value: T) | Rejected(fault: Fault)
}
