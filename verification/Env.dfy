/** What the crate asks of its surroundings: hashing, signing and recovery, RLP
    bytes, content codecs and log serialisation, all as fixed functions. */
module Env {
  import opened Prelude
  import opened Types
  import opened Codec

  /** The records the handlers write to the log when logging is compiled in. */
  datatype LogRecord =
    | LogSignedProposal(sp: SignedProposal) | LogBytes(bytes: Bytes) | LogSignedVote(sv: SignedVote)
    | LogStatus(status: Status) | LogFeed(feed: Feed) | LogVerifyResp(resp: VerifyResp)
    | LogProposal(proposal: BftProposal) | LogVote(vote: BftVote) | LogCommit(commit: BftCommit)

  datatype Env = Env(
    address: Address,
    hash: Bytes -> Hash,
    recover: (Signature, Hash) -> Option<Address>,
    sign: Hash -> Option<Signature>,
    rlp: Item -> Bytes,
    unrlp: Bytes -> Option<Item>,
    encode: Content -> Option<Bytes>,
    decode: Bytes -> Option<Content>,
    contentHash: Content -> Hash,
    // false where logging is on and the record cannot be serialised; without
    // the `wal_on` feature it is true everywhere
    logs: LogRecord -> bool)
  {
    function VoteDigest(v: Vote): Hash { hash(rlp(VoteItem(v))) }

    function ProposalDigest(p: Proposal): Hash { hash(rlp(ProposalItem(p))) }

    /** The signature recovers to the vote's own voter. */
    predicate Authentic(sv: SignedVote) {
      recover(sv.signature, VoteDigest(sv.vote)) == Some(sv.vote.voter)
    }

    predicate AuthenticProposal(sp: SignedProposal) {
      recover(sp.signature, ProposalDigest(sp.proposal)) == Some(sp.proposal.proposer)
    }

    /** This node's own signatures recover to its address. */
    ghost predicate SignsForItself() {
      forall h, sig :: sign(h) == Some(sig) ==> recover(sig, h) == Some(address)
    }
  }
}
