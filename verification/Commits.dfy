/** The proof built from a commit's lock votes is one that the checkers accept. */
module Commits {
  import opened Prelude
  import opened Types
  import opened Env
  import opened Collection
  import opened Proofs
  import opened Engine
  import opened Safety
  import opened History

  function BftVoters(votes: seq<BftVote>): set<Address> {
    set i | 0 <= i < |votes| :: votes[i].voter
  }

  /** The signature is the voter's own on a precommit for this block. */
  predicate PrecommitSigned(env: Env, height: u64, round: u64, hash: Hash, voter: Address, sig: Signature) {
    env.Authentic(SignedVote(Vote(Precommit, height, round, hash, voter), sig))
  }

  ghost predicate AllSigned(env: Env, height: u64, round: u64, hash: Hash, sigs: map<Address, Signature>) {
    forall a | a in sigs :: PrecommitSigned(env, height, round, hash, a, sigs[a])
  }

  lemma BftVotersOf(votes: seq<BftVote>)
    requires votes != []
    ensures BftVoters(votes) == {votes[0].voter} + BftVoters(votes[1..])
  {
    var rest := votes[1..];
    forall a ensures a in BftVoters(votes) <==> a in {votes[0].voter} + BftVoters(rest) {
      if a in BftVoters(votes) {
        var i :| 0 <= i < |votes| && votes[i].voter == a;
        assert i > 0 ==> rest[i - 1].voter == a;
      }
      if a in BftVoters(rest) {
        var i :| 0 <= i < |rest| && rest[i].voter == a;
        assert votes[i + 1].voter == a;
      }
    }
  }

  /** Signatures collected from a sound precommit set for one hash are all good,
      one per voter. */
  lemma {:induction false} CollectedSigned(env: Env, height: u64, round: u64, hash: Hash, stored: VoteSet,
                                           votes: seq<BftVote>, sigs: map<Address, Signature>)
    requires forall b | b in stored :: EntrySound(env, height, round, Precommit, b, stored[b])
    requires forall v | v in votes :: v.proposal == hash
    requires AllSigned(env, height, round, hash, sigs)
    requires CollectSignatures(stored, votes, sigs).Success?
    ensures var all := CollectSignatures(stored, votes, sigs).value;
            AllSigned(env, height, round, hash, all) && all.Keys == sigs.Keys + BftVoters(votes)
    decreases |votes|
  {
    if votes != [] {
      var v := votes[0];
      assert v in votes && votes == [v] + votes[1..];
      VoteConversionBijective(stored[v].vote, v);
      assert PrecommitSigned(env, height, round, hash, v.voter, stored[v].signature);
      var more := OrInsert(sigs, v.voter, stored[v].signature);
      CollectedSigned(env, height, round, hash, stored, votes[1..], more);
      BftVotersOf(votes);
    } else {
      assert BftVoters(votes) == {};
    }
  }

  /** A commit handled in a sound state, with lock votes that name its hash: the
      proof kept and handed out holds one signature per voter of the lock votes,
      and each recovers to its voter. */
  lemma CommitProofSigned(env: Env, s: State, c: BftCommit)
    requires Inv(env, s) && HandleCommit(env, s, c).1.Success?
    requires forall v | v in c.lockVotes :: v.proposal == c.proposal
    ensures var (s', r) := HandleCommit(env, s, c);
            var proof := r.value.proof;
            && s'.proof == Some(proof)
            && r.value.height == c.height && r.value.address == c.address
            && c.proposal in s.origin && r.value.result == s.origin[c.proposal]
            && proof.height == c.height && proof.round == c.round && proof.blockHash == c.proposal
            && proof.votes.Keys == BftVoters(c.lockVotes)
            && forall voter | voter in proof.votes :: RecoveredFrom(env, proof, voter) == Some(voter)
  {
    hide StoreGet, CollectSignatures, EntrySound, VoteCacheSound, ProposalCacheSound, EventSound;
    GetReads(s.votes, c.height, c.round, Precommit);
    var stored := Slot(s.votes, c.height, c.round, Precommit);
    assert StoreGet(s.votes, c.height, c.round, Precommit).1 == Some(stored);
    CollectedSigned(env, c.height, c.round, c.proposal, stored, c.lockVotes, map[]);
    var proof := HandleCommit(env, s, c).1.value.proof;
    forall voter | voter in proof.votes ensures RecoveredFrom(env, proof, voter) == Some(voter) {
      assert PrecommitSigned(env, c.height, c.round, c.proposal, voter, proof.votes[voter]);
    }
  }

  predicate FirstBy(votes: seq<BftVote>, i: nat)
    requires i < |votes|
  {
    forall j | 0 <= j < i :: votes[j].voter != votes[i].voter
  }

  /** Whatever the list, each voter is given the stored signature of its first vote in it. */
  lemma {:induction false} CollectedFirst(stored: VoteSet, votes: seq<BftVote>, sigs: map<Address, Signature>)
    requires CollectSignatures(stored, votes, sigs).Success?
    ensures var all := CollectSignatures(stored, votes, sigs).value;
            && all.Keys == sigs.Keys + BftVoters(votes)
            && (forall a | a in sigs :: all[a] == sigs[a])
            && forall i | 0 <= i < |votes| && FirstBy(votes, i) && votes[i].voter !in sigs ::
                 votes[i] in stored && all[votes[i].voter] == stored[votes[i]].signature
    decreases |votes|
  {
    if votes != [] {
      var rest, more := votes[1..], OrInsert(sigs, votes[0].voter, stored[votes[0]].signature);
      CollectedFirst(stored, rest, more);
      BftVotersOf(votes);
      var all := CollectSignatures(stored, votes, sigs).value;
      forall i | 0 <= i < |votes| && FirstBy(votes, i) && votes[i].voter !in sigs
        ensures votes[i] in stored && all[votes[i].voter] == stored[votes[i]].signature
      {
        if i > 0 {
          assert rest[i - 1] == votes[i] && votes[0].voter != votes[i].voter;
          assert FirstBy(rest, i - 1) by { assert forall j | 0 <= j < i - 1 :: rest[j] == votes[j + 1]; }
        }
      }
    } else {
      assert BftVoters(votes) == {};
    }
  }

  /** All that a successful commit hands to the application. */
  lemma CommitCarries(env: Env, s: State, c: BftCommit)
    requires Inv(env, s) && HandleCommit(env, s, c).1.Success?
    ensures var (s', r) := HandleCommit(env, s, c);
            var out, stored := r.value, Slot(s.votes, c.height, c.round, Precommit);
            && out.height == c.height && out.address == c.address
            && c.proposal in s.origin && out.result == s.origin[c.proposal]
            && s'.proof == Some(out.proof)
            && out.proof.height == c.height && out.proof.round == c.round && out.proof.blockHash == c.proposal
            && out.proof.votes.Keys == BftVoters(c.lockVotes)
            && forall i | 0 <= i < |c.lockVotes| && FirstBy(c.lockVotes, i) ::
                 && c.lockVotes[i] in stored && c.lockVotes[i].voter in out.proof.votes
                 && out.proof.votes[c.lockVotes[i].voter] == stored[c.lockVotes[i]].signature
  {
    hide StoreGet, CollectSignatures, EntrySound, VoteCacheSound, ProposalCacheSound, EventSound, FirstBy;
    GetReads(s.votes, c.height, c.round, Precommit);
    CollectedFirst(Slot(s.votes, c.height, c.round, Precommit), c.lockVotes, map[]);
  }

  /** More than two thirds of the list's length, all of them listed. */
  predicate Quorum(voters: set<Address>, authority: seq<Node>) {
    voters <= AddressSet(authority) && 3 * |voters| > 2 * |authority|
  }

  /** Such a proof is accepted at its height exactly under the lists of which its
      voters are a quorum (at height 0 under every list); under a list of distinct
      unit-weight members by weight as well. */
  lemma SignedProofAccepted(env: Env, proof: Proof, authority: seq<Node>)
    requires forall voter | voter in proof.votes :: RecoveredFrom(env, proof, voter) == Some(voter)
    ensures ProofVerified(env, proof, proof.height, authority)
            <==> proof.height == 0 || Quorum(proof.votes.Keys, authority)
    ensures 0 < proof.height < U64_BOUND - 1 && 3 * |authority| < U64_BOUND
            && UnitWeights(authority) && DistinctAddresses(authority) ==>
              (ProofChecked(env, proof, proof.height + 1, authority) == Success(true)
               <==> Quorum(proof.votes.Keys, authority))
  {
    hide AddressSet, RecoveredFrom, ProofChecked, TotalWeight, VotesWeight;
    assert |proof.votes| == |proof.votes.Keys|;
    assert forall voter | voter in proof.votes ::
        voter in AddressSet(authority) <==> CountedEntryOk(env, proof, authority, voter);
    if && 0 < proof.height < U64_BOUND - 1 && 3 * |authority| < U64_BOUND
       && UnitWeights(authority) && DistinctAddresses(authority)
    {
      CheckersAgree(env, proof, proof.height + 1, authority);
    }
  }

  /** In every state that a run reaches, a commit above height 0 whose lock votes
      name its hash yields a proof that a list accepts if and only if the voters
      are a quorum of that list. */
  lemma RunCommitAccepted(env: Env, inputs: seq<Input>, c: BftCommit, authority: seq<Node>)
    requires env.SignsForItself() && OwnVotes(env, inputs)
    requires HandleCommit(env, Run(env, inputs), c).1.Success?
    requires forall v | v in c.lockVotes :: v.proposal == c.proposal
    ensures ProofVerified(env, HandleCommit(env, Run(env, inputs), c).1.value.proof, c.height, authority)
            <==> c.height == 0 || Quorum(BftVoters(c.lockVotes), authority)
  {
    hide Run, HandleCommit, ProofVerified, Quorum;
    RunSound(env, inputs);
    CommitProofSigned(env, Run(env, inputs), c);
    SignedProofAccepted(env, HandleCommit(env, Run(env, inputs), c).1.value.proof, authority);
  }

  /** Nodes that hash, encode and recover signatures alike. */
  ghost predicate SameCrypto(a: Env, b: Env) {
    a.hash == b.hash && a.rlp == b.rlp && a.recover == b.recover
  }

  lemma SameCryptoVerifies(a: Env, b: Env, proof: Proof, h: u64, authority: seq<Node>)
    requires SameCrypto(a, b)
    ensures ProofVerified(a, proof, h, authority) == ProofVerified(b, proof, h, authority)
  {
    hide AddressSet;
    assert forall voter | voter in proof.votes ::
        CountedEntryOk(a, proof, authority, voter) == CountedEntryOk(b, proof, authority, voter);
  }

  /** Across nodes: a node one height further whose statuses were consecutive takes
      the proof that another node builds for a commit as the previous height's
      proof if and only if the voters are a quorum of the list in force there. */
  lemma PeersAcceptCommit(env: Env, inputs: seq<Input>, c: BftCommit, peer: Env, peerInputs: seq<Input>)
    requires env.SignsForItself() && OwnVotes(env, inputs) && SameCrypto(env, peer)
    requires HandleCommit(env, Run(env, inputs), c).1.Success?
    requires forall v | v in c.lockVotes :: v.proposal == c.proposal
    requires var there := Run(peer, peerInputs);
             Consecutive(Statuses(there.trace)) && there.height == c.height + 1
    ensures var there := Run(peer, peerInputs);
            var proof := HandleCommit(env, Run(env, inputs), c).1.value.proof;
            CheckPreviousProof(peer, there, c.height + 1, proof).1.Success?
            <==> c.height == 0 || Quorum(BftVoters(c.lockVotes), InForce(Statuses(there.trace), c.height))
  {
    hide Run, HandleCommit, ProofVerified, Statuses, InForce, Consecutive, Quorum;
    var there, proof := Run(peer, peerInputs), HandleCommit(env, Run(env, inputs), c).1.value.proof;
    var hs := Statuses(there.trace);
    RunTracked(peer, peerInputs);
    ListInForce(hs, c.height);
    RunCommitAccepted(env, inputs, c, there.authority.ListFor(c.height));
    SameCryptoVerifies(env, peer, proof, c.height, there.authority.ListFor(c.height));
  }
}
