/** The two checkers of commit proofs: by head count (`verify_proof` of
    src/consensus.rs) and by weight (`check_proof` of src/util.rs). */
module Proofs {
  import opened Prelude
  import opened Types
  import opened Env
  import Codec

  /** The vote that an entry of a proof claims its voter has signed. */
  function ClaimedVote(p: Proof, voter: Address): Vote {
    Vote(Precommit, p.height, p.round, p.blockHash, voter)
  }

  function RecoveredFrom(env: Env, p: Proof, voter: Address): Option<Address>
    requires voter in p.votes
  {
    env.recover(p.votes[voter], env.VoteDigest(ClaimedVote(p, voter)))
  }

  // ---- by head count

  /** A recovery that yields no address is let through. */
  predicate CountedEntryOk(env: Env, p: Proof, authority: seq<Node>, voter: Address)
    requires voter in p.votes
  {
    voter in AddressSet(authority) &&
    (RecoveredFrom(env, p, voter).Some? ==> RecoveredFrom(env, p, voter).value == voter)
  }

  predicate ProofVerified(env: Env, p: Proof, h: u64, authority: seq<Node>) {
    h == 0 ||
    (h == p.height && 2 * |authority| < 3 * |p.votes| &&
     forall voter | voter in p.votes :: CountedEntryOk(env, p, authority, voter))
  }

  method VerifyProof(env: Env, p: Proof, h: u64, authority: seq<Node>) returns (ok: bool)
    ensures ok == ProofVerified(env, p, h, authority)
  {
    if h == 0 { return true; }
    var addresses := IntoAddrSet(authority);
    if h != p.height || 2 * |addresses| >= 3 * |p.votes| { return false; }
    var todo := p.votes.Keys;
    while todo != {}
      invariant todo <= p.votes.Keys
      invariant forall voter | voter in p.votes :: voter in todo || CountedEntryOk(env, p, authority, voter)
      decreases todo
    {
      var sender :| sender in todo;
      if sender in addresses {
        var digest := env.hash(env.rlp(Codec.VoteItem(Vote(Precommit, p.height, p.round, p.blockHash, sender))));
        assert digest == env.VoteDigest(ClaimedVote(p, sender));
        var address := env.recover(p.votes[sender], digest);
        if address.Some? && address.value != sender {
          assert !CountedEntryOk(env, p, authority, sender);
          return false;
        }
      } else {
        assert !CountedEntryOk(env, p, authority, sender);
        return false;
      }
      todo := todo - {sender};
    }
    return true;
  }

  // ---- by weight

  function TotalWeight(authority: seq<Node>): nat {
    if authority == [] then 0 else authority[0].voteWeight + TotalWeight(authority[1..])
  }

  /** The weight of the list entries whose address is among the voters. */
  function VotesWeight(authority: seq<Node>, voters: set<Address>): nat {
    if authority == [] then 0
    else (if authority[0].address in voters then authority[0].voteWeight else 0) + VotesWeight(authority[1..], voters)
  }

  predicate WeighedEntryOk(env: Env, p: Proof, authority: seq<Node>, voter: Address)
    requires voter in p.votes
  {
    voter in AddressSet(authority) && RecoveredFrom(env, p, voter) == Some(voter)
  }

  /** `Panicked` where a 64-bit sum or product overflows. */
  function ProofChecked(env: Env, p: Proof, height: u64, authority: seq<Node>): Result<bool> {
    if height == 0 then Success(true)
    else if p.height + 1 == U64_BOUND then Failure(Panicked)
    else if height != p.height + 1 then Success(false)
    else
      var voted, total := VotesWeight(authority, p.votes.Keys), TotalWeight(authority);
      if voted * 3 >= U64_BOUND || total * 2 >= U64_BOUND then Failure(Panicked)
      else if voted * 3 <= total * 2 then Success(false)
      else Success(forall voter | voter in p.votes :: WeighedEntryOk(env, p, authority, voter))
  }

  method CheckProof(env: Env, p: Proof, height: u64, authority: seq<Node>) returns (r: Result<bool>)
    ensures r == ProofChecked(env, p, height, authority)
  {
    if height == 0 { return Success(true); }
    if p.height + 1 == U64_BOUND { return Failure(Panicked); }
    if height != p.height + 1 { return Success(false); }
    var voted, total := VotesWeight(authority, p.votes.Keys), TotalWeight(authority);
    if voted * 3 >= U64_BOUND || total * 2 >= U64_BOUND { return Failure(Panicked); }
    if voted * 3 <= total * 2 { return Success(false); }
    var addresses := IntoAddrSet(authority);
    var todo := p.votes.Keys;
    while todo != {}
      invariant todo <= p.votes.Keys
      invariant forall voter | voter in p.votes :: voter in todo || WeighedEntryOk(env, p, authority, voter)
      decreases todo
    {
      var sender :| sender in todo;
      if sender in addresses {
        var digest := env.hash(env.rlp(Codec.VoteItem(Vote(Precommit, p.height, p.round, p.blockHash, sender))));
        assert digest == env.VoteDigest(ClaimedVote(p, sender));
        if Some(sender) != env.recover(p.votes[sender], digest) {
          assert !WeighedEntryOk(env, p, authority, sender);
          return Success(false);
        }
      } else {
        assert !WeighedEntryOk(env, p, authority, sender);
        return Success(false);
      }
      todo := todo - {sender};
    }
    return Success(true);
  }

  /** What the weights sum: each node of the list its own, once per entry. */
  lemma {:induction false} WeightsAdd(a: seq<Node>, b: seq<Node>, node: Node, voters: set<Address>)
    ensures TotalWeight(a + b) == TotalWeight(a) + TotalWeight(b) && TotalWeight([node]) == node.voteWeight
    ensures VotesWeight(a + b, voters) == VotesWeight(a, voters) + VotesWeight(b, voters)
    ensures VotesWeight([node], voters) == if node.address in voters then node.voteWeight else 0
  {
    if a == [] {
      assert a + b == b;
    } else {
      WeightsAdd(a[1..], b, node, voters);
      assert (a + b)[1..] == a[1..] + b;
    }
  }

  /** The voter is listed and has signed the precommit that the proof claims. */
  ghost predicate SignerOf(env: Env, p: Proof, authority: seq<Node>, a: Address)
    requires a in p.votes
  {
    && a in AddressSet(authority)
    && env.recover(p.votes[a], env.VoteDigest(Vote(Precommit, p.height, p.round, p.blockHash, a))) == Some(a)
  }

  /** The weight checker's whole answer: it overflows where a height, a tripled or a
      doubled sum does, and otherwise accepts at height 0 and exactly those proofs of
      the height below whose voters are listed, have signed the claimed precommits,
      and carry more than two thirds of the weight. */
  lemma CheckedIff(env: Env, p: Proof, height: u64, authority: seq<Node>)
    ensures var voted, total := VotesWeight(authority, p.votes.Keys), TotalWeight(authority);
            var overflows := || p.height == 0xFFFF_FFFF_FFFF_FFFF
                             || (&& height == p.height + 1
                                 && (3 * voted >= 0x1_0000_0000_0000_0000 || 2 * total >= 0x1_0000_0000_0000_0000));
            var accepts := && height == p.height + 1 && 3 * voted > 2 * total
                           && forall a | a in p.votes :: SignerOf(env, p, authority, a);
            ProofChecked(env, p, height, authority) ==
              if height == 0 then Success(true) else if overflows then Failure(Panicked) else Success(accepts)
  {
    hide AddressSet, VotesWeight, TotalWeight, Env.VoteDigest;
    assert forall a | a in p.votes :: WeighedEntryOk(env, p, authority, a) == SignerOf(env, p, authority, a);
  }

  /** The head-count checker's whole answer: the same of the voters, but for signatures
      that yield no address, and of their number. */
  lemma VerifiedIff(env: Env, p: Proof, h: u64, authority: seq<Node>)
    ensures ProofVerified(env, p, h, authority) <==>
            (|| h == 0
             || (&& h == p.height && 3 * |p.votes| > 2 * |authority|
                 && forall a | a in p.votes ::
                      || SignerOf(env, p, authority, a)
                      || (a in AddressSet(authority) && RecoveredFrom(env, p, a).None?)))
  {
    hide AddressSet, Env.VoteDigest;
    assert forall a | a in p.votes :: CountedEntryOk(env, p, authority, a) <==>
        (|| SignerOf(env, p, authority, a)
         || (a in AddressSet(authority) && RecoveredFrom(env, p, a).None?));
  }

  // ---- quorum intersection

  lemma {:induction false} WeightsOverlap(authority: seq<Node>, a: set<Address>, b: set<Address>)
    ensures VotesWeight(authority, a) + VotesWeight(authority, b)
            <= TotalWeight(authority) + VotesWeight(authority, a * b)
    ensures VotesWeight(authority, a * b) > 0 ==>
              exists i :: 0 <= i < |authority| && authority[i].address in a * b && authority[i].voteWeight > 0
  {
    if authority != [] {
      WeightsOverlap(authority[1..], a, b);
      if authority[0].address in a * b && authority[0].voteWeight > 0 {
      } else if VotesWeight(authority, a * b) > 0 {
        var i :| 0 <= i < |authority[1..]| && authority[1..][i].address in a * b && authority[1..][i].voteWeight > 0;
        assert authority[i + 1] == authority[1..][i];
      }
    }
  }

  /** Valid signatures of one voter on two different hashes for one height and round. */
  predicate Equivocates(env: Env, x: SignedVote, y: SignedVote) {
    && env.Authentic(x) && env.Authentic(y)
    && x.vote.voteType == y.vote.voteType == Precommit
    && x.vote.height == y.vote.height && x.vote.round == y.vote.round
    && x.vote.voter == y.vote.voter && x.vote.proposal != y.vote.proposal
  }

  function SignedClaim(p: Proof, voter: Address): SignedVote
    requires voter in p.votes
  {
    SignedVote(ClaimedVote(p, voter), p.votes[voter])
  }

  /** Two accepted proofs for one height: those who signed both carry more than a
      third of the weight, some of them with positive weight; with the same round
      and different hashes every one of them has equivocated. Duplicates in the
      list and any weights are allowed. */
  lemma WeightedQuorums(env: Env, p: Proof, q: Proof, height: u64, authority: seq<Node>)
    requires height > 0
    requires ProofChecked(env, p, height, authority) == Success(true)
    requires ProofChecked(env, q, height, authority) == Success(true)
    ensures VotesWeight(authority, p.votes.Keys * q.votes.Keys) * 3 > TotalWeight(authority)
    ensures exists i :: 0 <= i < |authority| && authority[i].voteWeight > 0
                        && authority[i].address in p.votes && authority[i].address in q.votes
    ensures forall voter | voter in p.votes && voter in q.votes ::
              && voter in AddressSet(authority)
              && env.Authentic(SignedClaim(p, voter)) && env.Authentic(SignedClaim(q, voter))
              && (p.round == q.round && p.blockHash != q.blockHash ==>
                    Equivocates(env, SignedClaim(p, voter), SignedClaim(q, voter)))
  {
    hide RecoveredFrom, AddressSet, VotesWeight, TotalWeight;
    WeightsOverlap(authority, p.votes.Keys, q.votes.Keys);
    forall voter | voter in p.votes && voter in q.votes
      ensures voter in AddressSet(authority)
      ensures env.Authentic(SignedClaim(p, voter)) && env.Authentic(SignedClaim(q, voter))
    {
      BothEntries(env, p, q, authority, voter);
    }
  }

  lemma BothEntries(env: Env, p: Proof, q: Proof, authority: seq<Node>, voter: Address)
    requires voter in p.votes && WeighedEntryOk(env, p, authority, voter)
    requires voter in q.votes && WeighedEntryOk(env, q, authority, voter)
    ensures voter in AddressSet(authority)
    ensures env.Authentic(SignedClaim(p, voter)) && env.Authentic(SignedClaim(q, voter))
  {
  }

  lemma {:induction false} AddressSetSize(authority: seq<Node>)
    ensures |AddressSet(authority)| <= |authority|
  {
    if authority != [] {
      AddressSetSize(authority[1..]);
      AddressSetSplits(authority);
      assert AddressSet(authority) == AddressSet(authority[1..]) + {authority[0].address};
    }
  }

  lemma AddressSetSplits(authority: seq<Node>)
    requires authority != []
    ensures AddressSet(authority) == {authority[0].address} + AddressSet(authority[1..])
  {
    forall a ensures a in AddressSet(authority) <==> a in {authority[0].address} + AddressSet(authority[1..]) {
      if a in AddressSet(authority) {
        var i :| 0 <= i < |authority| && authority[i].address == a;
        assert i > 0 ==> authority[1..][i - 1].address == a;
      }
      if a in AddressSet(authority[1..]) {
        var i :| 0 <= i < |authority[1..]| && authority[1..][i].address == a;
        assert authority[i + 1].address == a;
      }
    }
  }

  /** Two sets of listed addresses, each above two thirds of the list's length,
      share more than a third of it. */
  lemma CountOverlap(authority: seq<Node>, a: set<Address>, b: set<Address>)
    requires a <= AddressSet(authority) && b <= AddressSet(authority)
    requires 3 * |a| > 2 * |authority| && 3 * |b| > 2 * |authority|
    ensures 3 * |a * b| > |authority|
  {
    AddressSetSize(authority);
    SubsetSize(a + b, AddressSet(authority));
    assert |a + b| + |a * b| == |a| + |b|;
  }

  /** The same for proofs accepted by head count. */
  lemma CountedQuorums(env: Env, p: Proof, q: Proof, h: u64, authority: seq<Node>)
    requires h > 0 && ProofVerified(env, p, h, authority) && ProofVerified(env, q, h, authority)
    ensures 3 * |p.votes.Keys * q.votes.Keys| > |authority|
  {
    forall voter | voter in p.votes ensures voter in AddressSet(authority) {
      assert CountedEntryOk(env, p, authority, voter);
    }
    forall voter | voter in q.votes ensures voter in AddressSet(authority) {
      assert CountedEntryOk(env, q, authority, voter);
    }
    CountOverlap(authority, p.votes.Keys, q.votes.Keys);
  }

  /** A voter of a proof accepted by head count has signed what the proof claims
      exactly when the signature yields an address at all. */
  lemma SignedIff(env: Env, p: Proof, h: u64, authority: seq<Node>, voter: Address)
    requires h > 0 && ProofVerified(env, p, h, authority) && voter in p.votes
    ensures env.Authentic(SignedClaim(p, voter)) <==> RecoveredFrom(env, p, voter).Some?
  {
    assert CountedEntryOk(env, p, authority, voter);
  }

  /** Two proofs accepted by head count, in which every signature yields an address:
      more than a third of the list has signed both, and with the same round and
      different hashes each of these has equivocated. */
  lemma SignedQuorums(env: Env, p: Proof, q: Proof, h: u64, authority: seq<Node>)
    requires h > 0 && ProofVerified(env, p, h, authority) && ProofVerified(env, q, h, authority)
    requires forall voter | voter in p.votes :: RecoveredFrom(env, p, voter).Some?
    requires forall voter | voter in q.votes :: RecoveredFrom(env, q, voter).Some?
    ensures 3 * |p.votes.Keys * q.votes.Keys| > |authority|
    ensures forall voter | voter in p.votes && voter in q.votes ::
              && voter in AddressSet(authority)
              && env.Authentic(SignedClaim(p, voter)) && env.Authentic(SignedClaim(q, voter))
              && (p.round == q.round && p.blockHash != q.blockHash ==>
                    Equivocates(env, SignedClaim(p, voter), SignedClaim(q, voter)))
  {
    hide RecoveredFrom, Env.Authentic, AddressSet;
    CountedQuorums(env, p, q, h, authority);
    forall voter | voter in p.votes && voter in q.votes
      ensures voter in AddressSet(authority)
      ensures env.Authentic(SignedClaim(p, voter)) && env.Authentic(SignedClaim(q, voter))
    {
      SignedIff(env, p, h, authority, voter);
      SignedIff(env, q, h, authority, voter);
      assert CountedEntryOk(env, p, authority, voter);
    }
  }

  // ---- the two checkers compared

  ghost predicate UnitWeights(authority: seq<Node>) {
    forall i :: 0 <= i < |authority| ==> authority[i].voteWeight == 1
  }

  ghost predicate DistinctAddresses(authority: seq<Node>) {
    forall i, j :: 0 <= i < j < |authority| ==> authority[i].address != authority[j].address
  }

  lemma {:induction false} UnitWeightsTotal(authority: seq<Node>, voters: set<Address>)
    requires UnitWeights(authority)
    ensures VotesWeight(authority, voters) <= TotalWeight(authority) == |authority|
  {
    if authority != [] {
      UnitWeightsTotal(authority[1..], voters);
    }
  }

  lemma {:induction false} UnitWeightsCount(authority: seq<Node>, voters: set<Address>)
    requires UnitWeights(authority) && DistinctAddresses(authority)
    ensures VotesWeight(authority, voters) == |voters * AddressSet(authority)|
  {
    if authority == [] {
      assert voters * AddressSet(authority) == {};
    } else {
      var first, rest := authority[0].address, AddressSet(authority[1..]);
      UnitWeightsCount(authority[1..], voters);
      AddressSetSplits(authority);
      assert first !in rest by {
        hide AddressSet;
        if first in rest { FirstAgain(authority); }
      }
      hide AddressSet;
      if first in voters {
        assert voters * AddressSet(authority) == voters * rest + {first};
      } else {
        assert voters * AddressSet(authority) == voters * rest;
      }
    }
  }

  lemma FirstAgain(authority: seq<Node>)
    requires authority != [] && authority[0].address in AddressSet(authority[1..])
    ensures !DistinctAddresses(authority)
  {
    var i :| 0 <= i < |authority[1..]| && authority[1..][i].address == authority[0].address;
    assert authority[i + 1].address == authority[0].address;
  }

  /** With unit weights and distinct addresses the weight checker accepts exactly
      the proofs that the head-count checker accepts and in which every recovery
      yields an address. */
  lemma CheckersAgree(env: Env, p: Proof, height: u64, authority: seq<Node>)
    requires height >= 2 && UnitWeights(authority) && DistinctAddresses(authority)
    requires 3 * |authority| < U64_BOUND
    ensures ProofChecked(env, p, height, authority) == Success(true)
            <==> ProofVerified(env, p, height - 1, authority)
                 && forall voter | voter in p.votes :: RecoveredFrom(env, p, voter).Some?
  {
    hide RecoveredFrom, AddressSet;
    UnitWeightsTotal(authority, p.votes.Keys);
    if ProofChecked(env, p, height, authority) == Success(true) {
      assert forall voter | voter in p.votes :: WeighedEntryOk(env, p, authority, voter);
      AllListed(authority, p.votes.Keys);
      assert forall voter | voter in p.votes :: CountedEntryOk(env, p, authority, voter);
    }
    if && ProofVerified(env, p, height - 1, authority)
       && forall voter | voter in p.votes :: RecoveredFrom(env, p, voter).Some?
    {
      assert forall voter | voter in p.votes :: CountedEntryOk(env, p, authority, voter);
      AllListed(authority, p.votes.Keys);
      assert forall voter | voter in p.votes :: WeighedEntryOk(env, p, authority, voter);
    }
  }

  lemma AllListed(authority: seq<Node>, voters: set<Address>)
    requires UnitWeights(authority) && DistinctAddresses(authority) && voters <= AddressSet(authority)
    ensures VotesWeight(authority, voters) == |voters|
  {
    UnitWeightsCount(authority, voters);
    assert voters * AddressSet(authority) == voters;
  }

  /** Every listed address under one and the same signature. */
  function BlanketProof(hash: Hash, height: u64, round: u64, authority: seq<Node>, sig: Signature): Proof {
    Proof(hash, height, round, map a | a in AddressSet(authority) :: sig)
  }

  lemma {:induction false} DistinctAddressCount(authority: seq<Node>)
    requires DistinctAddresses(authority)
    ensures |AddressSet(authority)| == |authority|
  {
    if authority == [] {
      assert AddressSet(authority) == {};
    } else {
      DistinctAddressCount(authority[1..]);
      AddressSetSplits(authority);
      if authority[0].address in AddressSet(authority[1..]) { FirstAgain(authority); }
    }
  }

  /** With a signature from which nothing is recovered, the head-count checker takes
      a proof that nobody has signed, for any block, at any height above 0 and under
      any list of distinct members; the weight checker never does. */
  lemma UnsignedProofAccepted(env: Env, hash: Hash, h: u64, round: u64, authority: seq<Node>, sig: Signature)
    requires forall digest :: env.recover(sig, digest) == None
    requires h > 0 && authority != [] && DistinctAddresses(authority)
    ensures var p := BlanketProof(hash, h, round, authority, sig);
            && ProofVerified(env, p, h, authority)
            && (forall height :: height > 0 ==> ProofChecked(env, p, height, authority) != Success(true))
            && forall voter | voter in p.votes :: !env.Authentic(SignedClaim(p, voter))
  {
    hide AddressSet;
    var p := BlanketProof(hash, h, round, authority, sig);
    DistinctAddressCount(authority);
    assert p.votes.Keys == AddressSet(authority) && |p.votes| == |p.votes.Keys|;
    assert authority[0].address in p.votes by { AddressSetSplits(authority); }
    assert !WeighedEntryOk(env, p, authority, authority[0].address);
  }
}
