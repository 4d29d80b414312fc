/** Wire messages and the core's own message types (src/types.rs and bft-core). */
module Types {
  import opened Prelude

  type Address = Bytes
  type Hash = Bytes
  type Signature = Bytes

  datatype VoteType = Prevote | Precommit

  datatype Vote = Vote(voteType: VoteType, height: u64, round: u64, proposal: Hash, voter: Address)
  datatype SignedVote = SignedVote(vote: Vote, signature: Signature)

  datatype Proof = Proof(blockHash: Hash, height: u64, round: u64, votes: map<Address, Signature>)

  datatype Proposal = Proposal(
    height: u64, round: u64, hash: Hash, proof: Proof,
    lockRound: Option<u64>, lockVotes: seq<SignedVote>, proposer: Address)
  datatype SignedProposal = SignedProposal(proposal: Proposal, signature: Signature)

  datatype Node = Node(address: Address, proposalWeight: u32, voteWeight: u32)
  datatype Status = Status(height: u64, interval: Option<u64>, authorityList: seq<Node>)
  datatype VerifyResp = VerifyResp(isPass: bool, proposal: Hash)

  /** Block contents are opaque tokens; what can be done with one is in `Env`. */
  datatype Content = Content(token: nat)
  datatype Feed = Feed(height: u64, content: Content)
  datatype Commit = Commit(height: u64, result: Content, proof: Proof, address: Address)

  datatype BftVote = BftVote(voteType: VoteType, height: u64, round: u64, proposal: Hash, voter: Address)
  datatype BftProposal = BftProposal(
    height: u64, round: u64, content: Hash,
    lockRound: Option<u64>, lockVotes: seq<BftVote>, proposer: Address)
  datatype BftCommit = BftCommit(height: u64, round: u64, proposal: Hash, lockVotes: seq<BftVote>, address: Address)
  datatype BftStatus = BftStatus(height: u64, interval: Option<u64>, authorityList: seq<Address>)
  datatype BftFeed = BftFeed(height: u64, proposal: Hash)

  function Addresses(nodes: seq<Node>): (a: seq<Address>)
    ensures |a| == |nodes|
    ensures forall i :: 0 <= i < |nodes| ==> a[i] == nodes[i].address
  {
    seq(|nodes|, i requires 0 <= i < |nodes| => nodes[i].address)
  }

  /** The addresses as the hash set `AuthorityManage` keeps. */
  function AddressSet(nodes: seq<Node>): set<Address> {
    set i | 0 <= i < |nodes| :: nodes[i].address
  }

  method IntoAddrSet(nodes: seq<Node>) returns (addresses: seq<Address>)
    ensures addresses == Addresses(nodes)
  {
    addresses := [];
    for i := 0 to |nodes|
      invariant addresses == Addresses(nodes[..i])
    {
      assert nodes[..i + 1] == nodes[..i] + [nodes[i]];
      addresses := addresses + [nodes[i].address];
    }
    assert nodes[..|nodes|] == nodes;
  }

  function ToBftVote(v: Vote): BftVote {
    BftVote(if v.voteType == Prevote then Prevote else Precommit, v.height, v.round, v.proposal, v.voter)
  }

  function FromBftVote(v: BftVote, voteType: VoteType): Vote {
    Vote(voteType, v.height, v.round, v.proposal, v.voter)
  }

  function ToBftVotes(votes: seq<SignedVote>): (b: seq<BftVote>)
    ensures |b| == |votes|
    ensures forall i :: 0 <= i < |votes| ==> b[i] == ToBftVote(votes[i].vote)
  {
    seq(|votes|, i requires 0 <= i < |votes| => ToBftVote(votes[i].vote))
  }

  function ToBftProposal(p: Proposal, hash: Hash): BftProposal {
    BftProposal(p.height, p.round, hash, p.lockRound,
                if p.lockRound.Some? then ToBftVotes(p.lockVotes) else [], p.proposer)
  }

  function ToBftStatus(s: Status): BftStatus {
    BftStatus(s.height, s.interval, Addresses(s.authorityList))
  }

  /** The two vote types convert into each other without loss, both ways. */
  lemma VoteConversionBijective(v: Vote, b: BftVote)
    ensures FromBftVote(ToBftVote(v), v.voteType) == v
    ensures ToBftVote(FromBftVote(b, b.voteType)) == b
    ensures ToBftVote(v) == b <==> v == FromBftVote(b, b.voteType)
  {
  }
}
