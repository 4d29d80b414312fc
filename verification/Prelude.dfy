/** Machine integers, bytes, results and errors, and facts on sets and division,
    shared by the other modules. */
module Prelude {

  const U64_BOUND: nat := 0x1_0000_0000_0000_0000
  const U32_BOUND: nat := 0x1_0000_0000

  type u64 = n: nat | n < U64_BOUND
  type u32 = n: nat | n < U32_BOUND
  type byte = n: nat | n < 256
  type Bytes = seq<byte>

  datatype Option<+T> = None | Some(value: T)

  /** The crate's error kinds without their message strings. `Panicked` is the
      outcome of an arithmetic overflow, an out-of-range slice or `panic!`. */
  datatype Error =
    | BlockVerifyDiff | DecodeErr | EncodeErr | SupportErr | SerJsonErr | BftCoreErr
    | ProofErr | LoseBlock | LoseSignedVote | MissingProof | NoVoteset | SignatureErr
    | ObsoleteMsg | FutureMsg | NoAuthorityList | InvalidProposer | InvalidVoter
    | IllegalProposalLock | Panicked

  datatype Result<+T> = Success(value: T) | Failure(error: Error) {
    predicate IsFailure() { Failure? }

    function PropagateFailure<U>(): Result<U>
      requires Failure?
    {
      Failure(error)
    }

    function Extract(): T
      requires Success?
    {
      value
    }
  }

  lemma {:induction false} SubsetSize<T>(a: set<T>, b: set<T>)
    requires a <= b
    ensures |a| <= |b|
    decreases b
  {
    if a != {} {
      var x :| x in a;
      SubsetSize(a - {x}, b - {x});
    }
  }

  lemma {:induction false} ProductGap(a: nat, b: nat, n: nat)
    requires a < b
    ensures a * n + n <= b * n
  {
    assert b * n == (b - 1) * n + n;
    if a < b - 1 { ProductGap(a, b - 1, n); }
  }

  lemma DivisionUnique(x: nat, q: nat, r: nat, n: nat)
    requires 0 < n && r < n && x == q * n + r
    ensures x / n == q && x % n == r
  {
    var d := x / n;
    assert x == d * n + x % n;
    if q < d {
      ProductGap(q, d, n);
    } else if d < q {
      ProductGap(d, q, n);
    }
  }
}
