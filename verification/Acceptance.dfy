/** Exactly which messages the handlers accept, and what they then store. */
module Acceptance {
  import opened Prelude
  import opened Types
  import opened Env
  import opened LruCache
  import opened Collection
  import opened Authority
  import opened Proofs
  import opened Engine
  import opened Safety
  import opened Delivery

  /** What a vote must satisfy to be stored, whoever has cast it. */
  predicate Storable(env: Env, s: State, sv: SignedVote) {
    && env.Authentic(sv) && s.height > 0
    && (sv.vote.height == s.height || sv.vote.height + 1 == s.height)
    && (sv.vote.height == s.height ==> env.logs(LogSignedVote(sv)))
  }

  /** What a vote must satisfy to be passed on at once. */
  predicate Deliverable(env: Env, s: State, sv: SignedVote) {
    && Storable(env, s, sv)
    && sv.vote.voter in s.authority.AddressesFor(sv.vote.height)
  }

  /** What a vote must satisfy to be kept for later. */
  predicate Keepable(env: Env, s: State, sv: SignedVote) {
    && env.Authentic(sv) && s.height > 0 && sv.vote.height > s.height
    && (sv.vote.height - s.height < 16 ==> env.logs(LogSignedVote(sv)))
  }

  /** A vote is accepted exactly when it is signed by its voter, for the current
      or the previous height, loggable, and cast by a member; it is then stored. */
  lemma VoteAcceptedIff(env: Env, s: State, sv: SignedVote)
    requires Inv(env, s)
    ensures var (s', r) := HandleSignedVote(env, s, sv);
            && (r.Success? <==> Deliverable(env, s, sv))
            && (r.Success? ==> r.value == ToBftVote(sv.vote)
                               && r.value in Slot(s'.votes, sv.vote.height, sv.vote.round, sv.vote.voteType))
  {
    hide StoreAdd, EventSound, StoreSound, VoteCacheSound, ProposalCacheSound, ProposalsValid, Push;
    if HandleSignedVote(env, s, sv).1.Success? {
      VoteStored(env, s.votes, sv.vote.height, sv.vote.round, sv.vote.voteType, sv);
    }
  }

  lemma VoteStored(env: Env, st: VoteStore, h: u64, r: u64, t: VoteType, sv: SignedVote)
    requires StoreSound(env, st)
    ensures ToBftVote(sv.vote) in Slot(StoreAdd(st, h, r, t, ToBftVote(sv.vote), sv).0, h, r, t)
  {
    hide StoreAdd, Peek;
    AddWrites(st, h, r, t, ToBftVote(sv.vote), sv);
  }

  /** A vote is kept for later exactly when it is signed, for a later height, and
      loggable if less than sixteen heights away; it then waits behind those
      already cached for its height. No other vote is cached. */
  lemma VoteCachedIff(env: Env, s: State, sv: SignedVote)
    ensures var (s', r) := HandleSignedVote(env, s, sv);
            var h := sv.vote.height;
            && (r == Failure(FutureMsg) <==> Keepable(env, s, sv))
            && (r == Failure(FutureMsg) ==>
                  && s' == s.(voteCache := s'.voteCache)
                  && CachedVotes(s', h) == CachedVotes(s, h) + [sv]
                  && forall k :: k != h ==> CachedVotes(s', k) == CachedVotes(s, k))
            && (r != Failure(FutureMsg) ==> s'.voteCache == s.voteCache)
  {
    hide StoreAdd;
  }

  function CachedProposals(s: State, height: u64): seq<Cached> {
    if height in s.proposalCache then s.proposalCache[height] else []
  }

  /** A received proposal is kept for later exactly when it decodes, is for a height
      less than sixteen above the current one, and is loggable; it then waits
      behind those already cached for its height, unchecked. No other is cached,
      and the block of every one that decodes is known from then on. */
  lemma ProposalCachedIff(env: Env, s: State, bytes: Bytes)
    ensures var s', decoded := ReceiveProposal(env, s, bytes).0, DecodeProposalMessage(env, bytes);
            && (decoded.Failure? ==> s' == s)
            && (decoded.Success? ==>
                  var (sp, block, hash) := decoded.value;
                  var h := sp.proposal.height;
                  var keeps := s.height < h < s.height + 16 && env.logs(LogBytes(bytes));
                  && CachedProposals(s', h) ==
                       CachedProposals(s, h) + (if keeps then [Cached(sp, block, bytes)] else [])
                  && (forall k :: k != h ==> CachedProposals(s', k) == CachedProposals(s, k))
                  && (keeps ==> s'.proposals == s.proposals && s'.votes == s.votes && s'.trace == s.trace)
                  && hash in s'.origin && (hash !in s.origin ==> s'.origin[hash] == block))
  {
    hide ForwardProposal, DecodeProposalMessage;
    var decoded := DecodeProposalMessage(env, bytes);
    if decoded.Success? {
      var (sp, block, hash) := decoded.value;
      ForwardKeepsCache(env, s.(origin := OrInsert(s.origin, hash, block)), sp);
    }
  }

  /** Forwarding adds to the trace what handling has let through, and nothing else. */
  lemma ForwardHandles(env: Env, s: State, sp: SignedProposal)
    ensures var forwarded, handled := ForwardProposal(env, s, sp), HandleSignedProposal(env, s, sp);
            forwarded.0 == handled.0.(trace := forwarded.0.trace) && (forwarded.1.Success? <==> handled.1.Success?)
  {
    hide HandleSignedProposal;
  }

  lemma ForwardKeepsCache(env: Env, s: State, sp: SignedProposal)
    ensures var s' := ForwardProposal(env, s, sp).0;
            s'.proposalCache == s.proposalCache && s'.origin == s.origin
  {
    hide HandleSignedProposal;
  }

  /** What a proposal must satisfy to be passed on. */
  ghost predicate ProposalDeliverable(env: Env, s: State, sp: SignedProposal) {
    var p := sp.proposal;
    && env.AuthenticProposal(sp) && s.height > 0
    && (p.height == s.height || p.height + 1 == s.height)
    && env.logs(LogSignedProposal(sp))
    && ProposerCheck(s.authority, p.height, p.round, p.proposer).Success?
    && LockAccepted(env, s.authority, p)
    && (p.height == s.height ==>
          && (p.hash in s.verified || p.hash in s.origin)
          && ProofVerified(env, p.proof, s.height - 1, s.authority.ListFor(s.height - 1)))
  }

  /** The proof kept before stays if it is the previous height's and otherwise makes
      way for the proposal's; from height 2 on, what is kept is the previous height's. */
  predicate ProofKept(height: u64, kept: Option<Proof>, p: Proposal, now: Option<Proof>)
    requires height > 0
  {
    && (kept.Some? && kept.value.height == height - 1 ==> now == kept)
    && (kept.None? || kept.value.height != height - 1 ==> now == Some(p.proof))
    && (height > 1 ==> now.value.height == height - 1)
  }

  lemma VerifiedHeight(env: Env, proof: Proof, h: u64, authority: seq<Node>)
    ensures h > 0 && ProofVerified(env, proof, h, authority) ==> proof.height == h
  {
  }

  /** The verdict a proposal is passed on with. */
  function KnownVerdict(s: State, p: Proposal): Option<VerifyResp> {
    if p.height < s.height then Some(VerifyResp(true, p.hash))
    else if p.hash in s.verified then Some(VerifyResp(s.verified[p.hash], p.hash))
    else None
  }

  /** The rest of the handler, after proposer and lock check. */
  lemma AdmittedIff(env: Env, s: State, p: Proposal)
    requires s.height > 0 && p.height >= s.height - 1
    ensures var (s', r) := AdmitProposal(env, s, p);
            && (r.Success? <==> && (p.height == s.height || p.height + 1 == s.height)
                                && (p.height == s.height ==>
                                      && (p.hash in s.verified || p.hash in s.origin)
                                      && ProofVerified(env, p.proof, s.height - 1, s.authority.ListFor(s.height - 1))))
            && (r.Success? ==> && r.value.0 == ToBftProposal(p, p.hash)
                               && r.value.1 == KnownVerdict(s, p))
            && (r.Success? && p.height == s.height ==> ProofKept(s.height, s.proof, p, s'.proof))
  {
    VerifiedHeight(env, p.proof, s.height - 1, s.authority.ListFor(s.height - 1));
    hide ProofVerified;
  }

  /** What comes before the lock check. */
  predicate Gated(env: Env, s: State, sp: SignedProposal) {
    var p := sp.proposal;
    && env.AuthenticProposal(sp) && s.height > 0 && p.height >= s.height - 1
    && env.logs(LogSignedProposal(sp))
    && ProposerCheck(s.authority, p.height, p.round, p.proposer).Success?
  }

  lemma GateThenLockThenAdmit(env: Env, s: State, sp: SignedProposal)
    ensures var p := sp.proposal;
            var s1 := s.(proposals := ProposalsAdd(s.proposals, p.height, p.round, sp).0);
            var (s2, lock) := CheckLockVotes(env, s1, p);
            var result := HandleSignedProposal(env, s, sp);
            && (!Gated(env, s, sp) || lock.Failure? ==> result.1.Failure?)
            && (Gated(env, s, sp) && lock.Success? ==> result == AdmitProposal(env, s2, p))
  {
    hide CheckLockVotes, ProposalsAdd, AdmitProposal, ProposerCheck;
  }

  /** A proposal is accepted exactly when it is signed by the rightful proposer, for
      the current or the previous height, loggable, passes the lock check and, for
      the current height, its block is known and the previous height's proof
      verifies. A previous-height proposal is passed as verified, a current one
      with the verdict already known for its block, if any. */
  lemma ProposalAcceptedIff(env: Env, s: State, sp: SignedProposal)
    requires Inv(env, s)
    ensures var (s', r) := HandleSignedProposal(env, s, sp);
            var p := sp.proposal;
            && (r.Success? <==> ProposalDeliverable(env, s, sp))
            && (r.Success? ==> && r.value.0 == ToBftProposal(p, p.hash)
                               && r.value.1 == KnownVerdict(s, p))
            && (r.Success? && p.height == s.height ==> ProofKept(s.height, s.proof, p, s'.proof))
  {
    hide StoreSound, ProposalsValid, VoteCacheSound, ProposalCacheSound, EventSound, LockAccepted, CheckLockVotes,
         ProposerCheck, ProofVerified, ProposalsAdd, AdmitProposal, ProofKept, HandleSignedProposal;
    var p := sp.proposal;
    GateThenLockThenAdmit(env, s, sp);
    if Gated(env, s, sp) {
      ProposalsAddWrites(s.proposals, p.height, p.round, sp);
      var s1 := s.(proposals := ProposalsAdd(s.proposals, p.height, p.round, sp).0);
      LockCheck(env, s1, p);
      AdmittedIff(env, CheckLockVotes(env, s1, p).0, p);
    }
  }

  /** The core's own vote is signed and kept exactly when it is not for a past
      height, loggable and signable; what is sent out converts back to it. */
  lemma OwnVoteSentIff(env: Env, s: State, v: BftVote)
    requires Inv(env, s) && env.SignsForItself() && v.voter == env.address
    ensures var (s', r) := HandleVote(env, s, v);
            && (r.Success? <==> v.height >= s.height && env.logs(LogVote(v))
                                && env.sign(env.VoteDigest(FromBftVote(v, v.voteType))).Some?)
            && (r.Success? ==> && ToBftVote(r.value.vote) == v && env.Authentic(r.value)
                               && v in Slot(s'.votes, v.height, v.round, v.voteType))
  {
    hide StoreAdd, StoreSound, ProposalsValid, EventSound, VoteCacheSound, ProposalCacheSound;
    var r := HandleVote(env, s, v).1;
    if r.Success? { VoteStored(env, s.votes, v.height, v.round, v.voteType, r.value); }
  }

  lemma {:induction false} CollectsIff(stored: VoteSet, votes: seq<BftVote>, sigs: map<Address, Signature>)
    ensures CollectSignatures(stored, votes, sigs).Success? <==> forall v | v in votes :: v in stored
    decreases |votes|
  {
    if votes != [] {
      assert forall v :: v in votes <==> v == votes[0] || v in votes[1..];
      if votes[0] in stored {
        CollectsIff(stored, votes[1..], OrInsert(sigs, votes[0].voter, stored[votes[0]].signature));
      }
    }
  }

  /** A commit succeeds exactly when it is not for a past height, loggable, its
      block is known and all its lock votes are stored as precommits of its height
      and round. */
  lemma CommitSucceedsIff(env: Env, s: State, c: BftCommit)
    requires Inv(env, s)
    ensures HandleCommit(env, s, c).1.Success? <==>
            && c.height >= s.height && env.logs(LogCommit(c)) && c.proposal in s.origin
            && Peek(s.votes, c.height, c.round, Precommit).Some?
            && forall v | v in c.lockVotes :: v in Slot(s.votes, c.height, c.round, Precommit)
  {
    hide StoreGet, CollectSignatures, Peek;
    GetReads(s.votes, c.height, c.round, Precommit);
    CollectsIff(Slot(s.votes, c.height, c.round, Precommit), c.lockVotes, map[]);
  }

  lemma {:induction false} LooksUpIff(stored: VoteSet, votes: seq<BftVote>)
    ensures LookUpVotes(stored, votes).Success? <==> forall v | v in votes :: v in stored
  {
    if votes != [] {
      assert forall v :: v in votes <==> v == votes[0] || v in votes[1..];
      LooksUpIff(stored, votes[1..]);
    }
  }

  /** A locked proposal of the core gets past the lookup of its lock votes exactly
      when all of them are stored as prevotes of the proposal's own round, not of
      its lock round. */
  lemma LockVotesFoundIff(env: Env, s: State, p: BftProposal)
    requires Inv(env, s) && p.lockRound.Some?
    ensures FindLockVotes(s, p).1.Success? <==>
            && Peek(s.votes, p.height, p.round, Prevote).Some?
            && forall v | v in p.lockVotes :: v in Slot(s.votes, p.height, p.round, Prevote)
  {
    hide StoreGet, LookUpVotes, Peek;
    GetReads(s.votes, p.height, p.round, Prevote);
    LooksUpIff(Slot(s.votes, p.height, p.round, Prevote), p.lockVotes);
  }
}
