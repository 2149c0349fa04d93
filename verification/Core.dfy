// Fixed-width domains, limits and status values shared by every component.

module Core {
  const U64_END: nat := 0x1_0000_0000_0000_0000
  const U32_END: nat := 0x1_0000_0000
  const U16_END: nat := 0x1_0000
  const I64_MAX: nat := 0x7FFF_FFFF_FFFF_FFFF

  type u64 = x: nat | x < U64_END
  type u32 = x: nat | x < U32_END
  type u16 = x: nat | x < U16_END
  type i64 = x: int | -0x8000_0000_0000_0000 <= x < 0x8000_0000_0000_0000
  type i32 = x: int | -0x8000_0000 <= x < 0x8000_0000

  // The bounded arithmetic domain.
  const MAX_SERVICE_UNITS: nat := 0x100_0000_0000
  const MAX_SUBJECTS: nat := 4096
  const MAX_GROUPS: nat := 256
  const MAX_GROUP_DEPTH: nat := 8
  const MAX_SHARE_WEIGHT: nat := 0x7FFF_FFFF
  const MAX_CARRY_UNITS: nat := 0x1_0000_0000_0000
  const MAX_INTENTS: nat := 8192
  const MAX_EVIDENCE_RECORDS: nat := 4096
  const MAX_PAYLOAD_BYTES: nat := 0x40_0000
  const BASIS_POINT_SCALE: nat := 10000
  const MAX_MODIFIER_BPS: nat := 100000
  const MAX_STREAK: nat := 1000000

  datatype Status =
    | Okay
    | InvalidArgument | LimitExceeded | OutOfRange | ArithmeticOverflow | Internal
    | PolicyInvalid | PolicyOvercommit | AlreadyExists | NotFound | GroupCycle | GroupDepthExceeded
    | Conflict | ShuttingDown | StaleEpoch | StaleGeneration | StaleIncarnation
    | PolicyGenerationMismatch | EvidenceContradictory | SequenceViolation | Duplicate
    | IoError | CommitRejected | RecoveryRequired
    | Truncated | OversizedPayload | CorruptRecord | UnsupportedFormat | ChecksumMismatch
    | FrameInvalid | FrameTooLarge | Unsupported

  datatype Result<+T> = Ok(value: T) | Err(status: Status)

  datatype Option<+T> = None | Some(value: T)

  function Pow2(k: nat): (p: nat)
    ensures p > 0
  {
    if k == 0 then 1 else 2 * Pow2(k - 1)
  }

  lemma {:induction false} Pow2Add(a: nat, b: nat)
    ensures Pow2(a + b) == Pow2(a) * Pow2(b)
  {
    if a > 0 {
      Pow2Add(a - 1, b);
      TwiceProduct(Pow2(a - 1), Pow2(b));
      assert Pow2(a + b) == 2 * Pow2(a - 1 + b);
    }
  }

  lemma {:induction false} TwiceProduct(p: nat, q: nat)
    ensures 2 * (p * q) == (2 * p) * q
  {
  }

  lemma {:induction false} Pow2Square(n: nat, p: nat)
    requires Pow2(n) == p
    ensures Pow2(2 * n) == p * p
  {
    Pow2Add(n, n);
  }

  lemma {:induction false} Pow2OfWord()
    ensures Pow2(64) == U64_END && Pow2(128) == U64_END * U64_END
  {
    Pow2Square(8, 0x100);
    Pow2Square(16, 0x1_0000);
    Pow2Square(32, 0x1_0000_0000);
    Pow2Square(64, U64_END);
  }

  function Min(a: int, b: int): int {
    if a < b then a else b
  }

  function Max(a: int, b: int): int {
    if a < b then b else a
  }

  /** a - b, or zero where that would be negative. */
  function Monus(a: int, b: int): nat {
    if a > b then a - b else 0
  }
}
