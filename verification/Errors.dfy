/** Which error each handler answers with: that of the first check that fails. */
module Errors {
  import opened Prelude
  import opened Types
  import opened Env
  import opened Collection
  import opened Authority
  import opened Proofs
  import opened Engine
  import opened Safety
  import opened Acceptance
  import opened Outcomes
  import Codec
  import Framing

  // ---- votes

  function VoteSigner(env: Env, sv: SignedVote): Option<Address> {
    env.recover(sv.signature, env.VoteDigest(sv.vote))
  }

  /** A vote from a peer: unrecoverable, at height 0, too old, signed by another, not
      loggable, too early, or not by a member. */
  lemma VoteErrors(env: Env, s: State, sv: SignedVote)
    ensures var r, v, from := HandleSignedVote(env, s, sv).1, sv.vote, VoteSigner(env, sv);
            var recent := s.height > 0 && v.height + 1 >= s.height;
            && (r == Failure(SupportErr) <==> from == None)
            && (r == Failure(Panicked) <==> from != None && s.height == 0)
            && (r == Failure(ObsoleteMsg) <==> from != None && s.height > 0 && v.height + 1 < s.height)
            && (r == Failure(SignatureErr) <==> from != None && recent && from != Some(v.voter))
            && (r == Failure(SerJsonErr) <==> from == Some(v.voter) && recent
                                              && s.height <= v.height < s.height + 16 && !env.logs(LogSignedVote(sv)))
            && (r == Failure(FutureMsg) <==> Keepable(env, s, sv))
            && (r == Failure(InvalidVoter) <==> Storable(env, s, sv) && v.voter !in s.authority.AddressesFor(v.height))
            && (r.Success? <==> Deliverable(env, s, sv))
  {
    hide StoreAdd;
  }

  // ---- lock votes

  /** One lock vote: too old, for another block, not by a member, unrecoverable, or
      signed by another. */
  lemma LockVoteErrors(env: Env, s: State, height: u64, round: u64, hash: Hash, sv: SignedVote)
    ensures var r, v, from := CheckSignedVote(env, s, height, round, hash, sv).1, sv.vote, VoteSigner(env, sv);
            var recent, member := s.height > 0 && height + 1 >= s.height, v.voter in s.authority.AddressesFor(height);
            && (r == Failure(Panicked) <==> s.height == 0)
            && (r == Failure(ObsoleteMsg) <==> s.height > 0 && !recent)
            && (r == Failure(BlockVerifyDiff) <==> recent && v.proposal != hash)
            && (r == Failure(InvalidVoter) <==> recent && v.proposal == hash && !member)
            && (r == Failure(SupportErr) <==> recent && v.proposal == hash && member && from == None)
            && (r == Failure(SignatureErr) <==> recent && v.proposal == hash && member
                                                && from != None && from != Some(v.voter))
            && (r.Success? <==> recent && v.proposal == hash && member && from == Some(v.voter))
  {
    hide StoreAdd;
  }

  /** The first `k` lock votes are acceptable, by distinct voters. */
  ghost predicate FirstOk(env: Env, under: Authority, p: Proposal, votes: seq<SignedVote>,
                          senders: set<Address>, k: nat)
    requires k <= |votes|
  {
    AllLockVotesOk(env, under, p, votes[..k]) && NewVoters(votes[..k], senders)
  }

  /** The loop fails with the error of the first vote that is not acceptable, or as for
      another block where the first such vote only repeats a voter. */
  lemma {:induction false} LoopError(env: Env, s: State, p: Proposal, round: u64, votes: seq<SignedVote>,
                                     senders: set<Address>, k: nat)
    requires StoreSound(env, s.votes) && s.height > 0 && p.height >= s.height - 1
    requires k < |votes| && FirstOk(env, s.authority, p, votes, senders, k)
    requires !FirstOk(env, s.authority, p, votes, senders, k + 1)
    ensures CollectSenders(env, s, p.height, round, p.hash, votes, senders).1 ==
            Failure(if LockVoteOk(env, s.authority, p, votes[k]) then BlockVerifyDiff
                    else CheckSignedVote(env, s, p.height, round, p.hash, votes[k]).1.error)
    decreases |votes|
  {
    var (s1, r1) := CheckSignedVote(env, s, p.height, round, p.hash, votes[0]);
    CheckSignedVoteSound(env, s, p, round, votes[0]);
    CollectSendersTurn(env, s, p, round, votes, senders);
    FirstOkSplits(env, s.authority, p, votes, senders, k);
    FirstOkSplits(env, s.authority, p, votes, senders, k + 1);
    if k > 0 {
      LoopError(env, s1, p, round, votes[1..], senders + {votes[0].vote.voter}, k - 1);
      SameVerdict(env, s, s1, p, round, votes[k]);
      assert votes[1..][k - 1] == votes[k];
    } else {
      FirstTurn(env, s, p, round, votes, senders);
    }
    hide CheckSignedVote, CollectSenders, LockVoteOk, FirstOk, StoreSound, Slot;
  }

  lemma FirstOkSplits(env: Env, under: Authority, p: Proposal, votes: seq<SignedVote>, senders: set<Address>, k: nat)
    requires k <= |votes| && votes != []
    ensures k == 0 ==> FirstOk(env, under, p, votes, senders, k)
    ensures k > 0 ==> (FirstOk(env, under, p, votes, senders, k) <==>
                         && LockVoteOk(env, under, p, votes[0]) && votes[0].vote.voter !in senders
                         && FirstOk(env, under, p, votes[1..], senders + {votes[0].vote.voter}, k - 1))
  {
    if k > 0 {
      var taken := votes[..k];
      assert taken[0] == votes[0] && taken[1..] == votes[1..][..k - 1];
      AllLockVotesOkSplits(env, under, p, taken);
      NewVotersSplits(taken, senders);
    } else {
      assert Voters(votes[..0]) == {};
    }
    hide LockVoteOk, Voters, DistinctVoters;
  }

  lemma FirstTurn(env: Env, s: State, p: Proposal, round: u64, votes: seq<SignedVote>, senders: set<Address>)
    requires votes != []
    ensures var (s1, r1) := CheckSignedVote(env, s, p.height, round, p.hash, votes[0]);
            var all := CollectSenders(env, s, p.height, round, p.hash, votes, senders);
            && (r1.Failure? ==> all.1 == Failure(r1.error))
            && (r1.Success? && r1.value in senders ==> all.1 == Failure(BlockVerifyDiff))
  {
    hide CheckSignedVote;
  }

  /** What one vote is answered does not depend on the votes stored before it. */
  lemma SameVerdict(env: Env, s: State, s1: State, p: Proposal, round: u64, sv: SignedVote)
    requires s1.height == s.height && s1.authority == s.authority
    ensures CheckSignedVote(env, s1, p.height, round, p.hash, sv).1 ==
            CheckSignedVote(env, s, p.height, round, p.hash, sv).1
  {
    hide StoreAdd;
  }

  /** Acceptable lock votes of distinct voters that are too few, or none of them by an
      old member, make an illegal lock. */
  lemma IllegalLockIff(env: Env, s: State, p: Proposal)
    requires Inv(env, s) && s.height > 0 && p.height >= s.height - 1 && p.lockRound.Some?
    requires AllLockVotesOk(env, s.authority, p, p.lockVotes) && DistinctVoters(p.lockVotes)
    ensures CheckLockVotes(env, s, p).1 ==
            if && 3 * |p.lockVotes| > 2 * |s.authority.oldList|
               && exists a | a in Voters(p.lockVotes) :: a in s.authority.oldAddresses
            then Success(()) else Failure(IllegalProposalLock)
  {
    hide StoreSound, ProposalsValid, VoteCacheSound, ProposalCacheSound, EventSound, LockVoteOk, DistinctVoters, Voters,
         CollectSenders, AllLockVotesOk;
    CollectSendersSound(env, s, p, p.lockRound.value, p.lockVotes, {});
    assert {} + Voters(p.lockVotes) == Voters(p.lockVotes);
  }

  // ---- proposals

  function ProposalSigner(env: Env, sp: SignedProposal): Option<Address> {
    env.recover(sp.signature, env.ProposalDigest(sp.proposal))
  }

  /** A proposal from a peer: unrecoverable, signed by another, at height 0, too old, not
      loggable, then as its proposer, its lock or the rest of it is judged. */
  lemma ProposalErrors(env: Env, s: State, sp: SignedProposal)
    ensures var r, p, from := HandleSignedProposal(env, s, sp).1, sp.proposal, ProposalSigner(env, sp);
            var s1 := s.(proposals := ProposalsAdd(s.proposals, p.height, p.round, sp).0);
            var proposer, lock := ProposerCheck(s.authority, p.height, p.round, p.proposer), CheckLockVotes(env, s1, p);
            if from == None then r == Failure(SupportErr)
            else if from != Some(p.proposer) then r == Failure(SignatureErr)
            else if s.height == 0 then r == Failure(Panicked)
            else if p.height + 1 < s.height then r == Failure(ObsoleteMsg)
            else if !env.logs(LogSignedProposal(sp)) then r == Failure(SerJsonErr)
            else if proposer.Failure? then r == Failure(proposer.error)
            else if lock.1.Failure? then r == Failure(lock.1.error)
            else if p.height + 1 == s.height then r.Success?
            else if p.hash !in s.verified && p.hash !in s.origin then r == Failure(LoseBlock)
            else if p.height > s.height || !ProofVerified(env, p.proof, s.height - 1, s.authority.ListFor(s.height - 1))
            then r == Failure(ProofErr)
            else r.Success?
  {
    hide CheckLockVotes, ProposerCheck, ProposalsAdd, ProofVerified;
  }

  /** The proposer: no list, an overflowing sum, or another's turn. */
  lemma ProposerErrors(under: Authority, height: u64, round: u64, proposer: Address)
    ensures var r, nodes := ProposerCheck(under, height, round, proposer), under.ListFor(height);
            && (r == Failure(NoAuthorityList) <==> nodes == [])
            && (r == Failure(Panicked) <==> nodes != [] && height + round >= 0x1_0000_0000_0000_0000)
            && (r.Success? <==> nodes != [] && height + round < 0x1_0000_0000_0000_0000
                                && nodes[(height + round) % |nodes|].address == proposer)
            && (r.Failure? && r.error != NoAuthorityList && r.error != Panicked ==> r.error == InvalidProposer)
  {
  }

  /** A frame that is not passed on: undecodable, not loggable, or as it is handled. */
  lemma FrameErrors(env: Env, s: State, bytes: Bytes)
    ensures var r, decoded := ReceiveProposal(env, s, bytes).1, DecodeProposalMessage(env, bytes);
            if decoded.Failure?
            then r == Failure(decoded.error) && (decoded.error == DecodeErr || decoded.error == Panicked)
            else
              var (sp, block, hash) := decoded.value;
              if s.height < sp.proposal.height < s.height + 16
              then r == if env.logs(LogBytes(bytes)) then Success(()) else Failure(SerJsonErr)
              else r == ForwardProposal(env, s.(origin := OrInsert(s.origin, hash, block)), sp).1
  {
    DecodeErrors(env, bytes);
    hide ForwardProposal, DecodeProposalMessage;
  }

  lemma DecodeErrors(env: Env, bytes: Bytes)
    ensures var decoded := DecodeProposalMessage(env, bytes);
            decoded.Failure? ==> decoded.error == DecodeErr || decoded.error == Panicked
  {
    var parts := Framing.Extract(bytes);
    if parts.Success? && env.unrlp(parts.value.0).Some? { ItemErrors(env.unrlp(parts.value.0).value); }
    hide Codec.DecodeSignedProposal;
  }

  lemma ItemErrors(i: Codec.Item)
    ensures var r := Codec.DecodeSignedProposal(i); r.Failure? ==> r.error == DecodeErr || r.error == Panicked
  {
    if i.List? && |i.items| == 2 && i.items[0].List? && |i.items[0].items| == 7 {
      var fields := i.items[0].items;
      ProofItemErrors(fields[3]);
      if fields[5].List? { VotesErrors(fields[5].items); }
      hide Codec.DecodeProof, Codec.DecodeSignedVotes, Codec.DecodeInt;
    }
  }

  lemma ProofItemErrors(i: Codec.Item)
    ensures var r := Codec.DecodeProof(i); r.Failure? ==> r.error == DecodeErr
  {
    if i.List? && |i.items| == 5 && i.items[3].List? && i.items[4].List? {
      BytesErrors(i.items[3].items);
      BytesErrors(i.items[4].items);
    }
    hide Codec.DecodeBytesList;
  }

  lemma {:induction false} BytesErrors(items: seq<Codec.Item>)
    ensures var r := Codec.DecodeBytesList(items); r.Failure? ==> r.error == DecodeErr
  {
    if items != [] { BytesErrors(items[1..]); }
  }

  lemma {:induction false} VotesErrors(items: seq<Codec.Item>)
    ensures var r := Codec.DecodeSignedVotes(items); r.Failure? ==> r.error == DecodeErr || r.error == Panicked
  {
    if items != [] {
      VotesErrors(items[1..]);
      VoteItemErrors(items[0]);
      hide Codec.DecodeSignedVote;
    }
  }

  lemma VoteItemErrors(i: Codec.Item)
    ensures var r := Codec.DecodeSignedVote(i); r.Failure? ==> r.error == DecodeErr || r.error == Panicked
  {
    hide Codec.DecodeInt;
    if i.List? && |i.items| == 2 && i.items[0].List? && |i.items[0].items| == 5 {
      IntErrors(i.items[0].items[0], 1);
      IntErrors(i.items[0].items[1], 8);
      IntErrors(i.items[0].items[2], 8);
    }
  }

  lemma IntErrors(i: Codec.Item, width: nat)
    ensures var r := Codec.DecodeInt(i, width); r.Failure? ==> r.error == DecodeErr
  {
  }

  // ---- statuses and the core's outputs

  lemma StatusErrors(env: Env, s: State, rs: Status)
    ensures var r, recent := HandleRichStatus(env, s, rs).1, rs.height >= s.height;
            && (r == Failure(ObsoleteMsg) <==> !recent)
            && (r == Failure(SerJsonErr) <==> recent && !env.logs(LogStatus(rs)))
            && (r == Failure(Panicked) <==> recent && env.logs(LogStatus(rs)) && rs.height == 0xFFFF_FFFF_FFFF_FFFF)
            && (r.Success? <==> Accepts(env, s, rs))
  {
  }

  lemma OwnVoteErrors(env: Env, s: State, v: BftVote)
    ensures var r := HandleVote(env, s, v).1;
            && (r == Failure(BftCoreErr) <==> v.height < s.height)
            && (r == Failure(SerJsonErr) <==> v.height >= s.height && !env.logs(LogVote(v)))
            && (r.Failure? && r.error != BftCoreErr && r.error != SerJsonErr ==> r.error == SupportErr)
  {
    hide StoreAdd;
  }

  /** An own proposal: for another height, not loggable, without a proof, without stored
      votes for its lock, unsignable, or its block unknown or not encodable. */
  lemma ProposingErrors(env: Env, s: State, p: BftProposal)
    requires Inv(env, s)
    ensures var r := HandleProposal(env, s, p).1;
            if p.height != s.height then r == Failure(BftCoreErr)
            else if !env.logs(LogProposal(p)) then r == Failure(SerJsonErr)
            else if s.height != 1 && s.proof.None? then r == Failure(MissingProof)
            else if !LockVotesStored(s, p)
            then r == Failure(if Peek(s.votes, p.height, p.round, Prevote).None? then NoVoteset else LoseSignedVote)
            else if env.sign(env.ProposalDigest(OwnProposal(s, p))).None? then r == Failure(SupportErr)
            else if p.content !in s.origin then r == Failure(LoseBlock)
            else if env.encode(s.origin[p.content]).None? then r == Failure(EncodeErr)
            else r.Success?
  {
    BuildErrors(env, s, p);
    hide BuildSignedProposal, LockVotesStored, Inv, OwnProposal, ProposalsAdd, Peek;
  }

  lemma BuildErrors(env: Env, s: State, p: BftProposal)
    requires Inv(env, s)
    ensures var r := BuildSignedProposal(env, s, p).1;
            if s.height != 1 && s.proof.None? then r == Failure(MissingProof)
            else if !LockVotesStored(s, p)
            then r == Failure(if Peek(s.votes, p.height, p.round, Prevote).None? then NoVoteset else LoseSignedVote)
            else if env.sign(env.ProposalDigest(OwnProposal(s, p))).None? then r == Failure(SupportErr)
            else r.Success?
  {
    BuiltIs(env, s, p);
    FoundVotesAre(env, s, p);
    LookupErrors(env, s, p);
    hide FindLockVotes, LockVotesStored, Inv, OwnProposal, Peek;
  }

  lemma LookupErrors(env: Env, s: State, p: BftProposal)
    requires Inv(env, s)
    ensures !LockVotesStored(s, p) ==>
              FindLockVotes(s, p).1 ==
              Failure(if Peek(s.votes, p.height, p.round, Prevote).None? then NoVoteset else LoseSignedVote)
  {
    hide StoreGet, LookUpVotes, Peek;
    FoundVotesAre(env, s, p);
    if p.lockRound.Some? {
      GetReads(s.votes, p.height, p.round, Prevote);
      LostErrors(Slot(s.votes, p.height, p.round, Prevote), p.lockVotes, map[]);
    }
  }

  lemma {:induction false} LostErrors(stored: VoteSet, votes: seq<BftVote>, sigs: map<Address, Signature>)
    ensures var r := LookUpVotes(stored, votes); r.Failure? ==> r == Failure(LoseSignedVote)
    ensures var r := CollectSignatures(stored, votes, sigs); r.Failure? ==> r == Failure(LoseSignedVote)
    decreases |votes|
  {
    if votes != [] && votes[0] in stored {
      LostErrors(stored, votes[1..], OrInsert(sigs, votes[0].voter, stored[votes[0]].signature));
    }
  }

  /** A commit: for a past height, not loggable, its block unknown, no precommits for its
      round, or one of its votes not among them. */
  lemma CommitErrors(env: Env, s: State, c: BftCommit)
    requires Inv(env, s)
    ensures var r := HandleCommit(env, s, c).1;
            if c.height < s.height then r == Failure(BftCoreErr)
            else if !env.logs(LogCommit(c)) then r == Failure(SerJsonErr)
            else if c.proposal !in s.origin then r == Failure(LoseBlock)
            else if Peek(s.votes, c.height, c.round, Precommit).None? then r == Failure(NoVoteset)
            else if exists v | v in c.lockVotes :: v !in Slot(s.votes, c.height, c.round, Precommit)
            then r == Failure(LoseSignedVote)
            else r.Success?
  {
    CommitSucceedsIff(env, s, c);
    GetReads(s.votes, c.height, c.round, Precommit);
    LostErrors(Slot(s.votes, c.height, c.round, Precommit), c.lockVotes, map[]);
    hide StoreGet, CollectSignatures, Inv, Peek;
  }
}
