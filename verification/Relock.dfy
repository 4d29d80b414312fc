/** When a node can propose a block again that it is locked on. The lock votes are
    looked up at the round of the new proposal (src/consensus.rs:462), where votes of
    the lock round get only by a detour. */
module Relock {
  import opened Prelude
  import opened Types
  import opened Env
  import opened Collection
  import opened Authority
  import opened Engine
  import opened Safety
  import opened Acceptance
  import opened History

  /** The proposals received so far, accepted or not. */
  function Received(env: Env, inputs: seq<Input>): set<SignedProposal> {
    if inputs == [] then {}
    else
      var last := inputs[|inputs| - 1];
      Received(env, inputs[..|inputs| - 1]) +
      if last.PeerProposal? && DecodeProposalMessage(env, last.bytes).Success?
      then {DecodeProposalMessage(env, last.bytes).value.0} else {}
  }

  /** The proposal claims a lock at this height and round and shows this vote for it. */
  ghost predicate Claims(sp: SignedProposal, height: u64, round: u64, b: BftVote) {
    && sp.proposal.height == height && sp.proposal.lockRound == Some(round)
    && exists sv :: sv in sp.proposal.lockVotes && ToBftVote(sv.vote) == b
  }

  /** A prevote lies under its own height and round, or some received proposal claims
      that it belongs there. */
  ghost predicate Accounted(received: set<SignedProposal>, height: u64, round: u64, b: BftVote) {
    (b.height == height && b.round == round) || exists sp :: sp in received && Claims(sp, height, round, b)
  }

  ghost predicate StoreAccounted(received: set<SignedProposal>, st: VoteStore) {
    && StoreValid(st)
    && forall h, r, b | b in Slot(st, h, r, Prevote) :: Accounted(received, h, r, b)
  }

  ghost predicate CachedReceived(received: set<SignedProposal>, cache: map<u64, seq<Cached>>) {
    forall h, c | h in cache && c in cache[h] :: c.signed in received
  }

  ghost predicate AllAccounted(received: set<SignedProposal>, s: State) {
    StoreAccounted(received, s.votes) && CachedReceived(received, s.proposalCache)
  }

  lemma AddAccounted(received: set<SignedProposal>, st: VoteStore, h: u64, r: u64, t: VoteType,
                     b: BftVote, sv: SignedVote)
    requires StoreAccounted(received, st) && (t == Prevote ==> Accounted(received, h, r, b))
    ensures StoreAccounted(received, StoreAdd(st, h, r, t, b, sv).0)
  {
    hide StoreAdd, Peek, Accounted;
    AddWrites(st, h, r, t, b, sv);
    var after := StoreAdd(st, h, r, t, b, sv).0;
    forall h', r', b' | b' in Slot(after, h', r', Prevote) ensures Accounted(received, h', r', b') {
      assert Peek(after, h', r', Prevote).Some?;
      if Peek(after, h', r', Prevote) == Peek(st, h', r', Prevote) { assert b' in Slot(st, h', r', Prevote); }
      else { assert b' == b || b' in Slot(st, h', r', Prevote); }
    }
  }

  lemma GetAccounted(received: set<SignedProposal>, st: VoteStore, h: u64, r: u64, t: VoteType)
    requires StoreAccounted(received, st)
    ensures StoreAccounted(received, StoreGet(st, h, r, t).0)
  {
    hide StoreGet, Peek, Accounted;
    GetReads(st, h, r, t);
    var after := StoreGet(st, h, r, t).0;
    forall h', r', b | b in Slot(after, h', r', Prevote) ensures Accounted(received, h', r', b) {
      assert b in Slot(st, h', r', Prevote);
    }
  }

  lemma MoreReceived(received: set<SignedProposal>, more: set<SignedProposal>, s: State)
    requires received <= more && AllAccounted(received, s)
    ensures AllAccounted(more, s)
  {
    hide Claims, Slot;
    assert forall h, r, b :: Accounted(received, h, r, b) ==> Accounted(more, h, r, b);
  }

  // ---- each handler

  lemma ForwardVoteAccounted(env: Env, received: set<SignedProposal>, s: State, sv: SignedVote)
    requires AllAccounted(received, s)
    ensures AllAccounted(received, ForwardVote(env, s, sv).0)
  {
    hide StoreAdd, StoreAccounted;
    var v := sv.vote;
    AddAccounted(received, s.votes, v.height, v.round, v.voteType, ToBftVote(v), sv);
  }

  lemma {:induction false} DrainVotesAccounted(env: Env, received: set<SignedProposal>, s: State,
                                               votes: seq<SignedVote>)
    requires AllAccounted(received, s)
    ensures AllAccounted(received, DrainVotes(env, s, votes).0)
    decreases |votes|
  {
    if votes != [] {
      hide ForwardVote, AllAccounted;
      ForwardVoteAccounted(env, received, s, votes[0]);
      if ForwardVote(env, s, votes[0]).1.Success? {
        DrainVotesAccounted(env, received, ForwardVote(env, s, votes[0]).0, votes[1..]);
      }
    }
  }

  lemma LockVoteAccounted(env: Env, received: set<SignedProposal>, s: State, sp: SignedProposal, sv: SignedVote)
    requires StoreAccounted(received, s.votes) && sp in received
    requires sp.proposal.lockRound.Some? && sv in sp.proposal.lockVotes
    ensures var p := sp.proposal;
            StoreAccounted(received, CheckSignedVote(env, s, p.height, p.lockRound.value, p.hash, sv).0.votes)
  {
    hide StoreAdd, StoreAccounted;
    var p := sp.proposal;
    assert Claims(sp, p.height, p.lockRound.value, ToBftVote(sv.vote));
    AddAccounted(received, s.votes, p.height, p.lockRound.value, Prevote, ToBftVote(sv.vote), sv);
  }

  lemma {:induction false} SendersAccounted(env: Env, received: set<SignedProposal>, s: State, sp: SignedProposal,
                                            votes: seq<SignedVote>, senders: set<Address>)
    requires StoreAccounted(received, s.votes) && sp in received && sp.proposal.lockRound.Some?
    requires forall sv | sv in votes :: sv in sp.proposal.lockVotes
    ensures var p := sp.proposal;
            var s' := CollectSenders(env, s, p.height, p.lockRound.value, p.hash, votes, senders).0;
            StoreAccounted(received, s'.votes)
    decreases |votes|
  {
    if votes != [] {
      hide CheckSignedVote, CollectSenders, StoreAccounted;
      var p := sp.proposal;
      var (s1, r1) := CheckSignedVote(env, s, p.height, p.lockRound.value, p.hash, votes[0]);
      CollectSendersTurn(env, s, p, p.lockRound.value, votes, senders);
      LockVoteAccounted(env, received, s, sp, votes[0]);
      if r1.Success? && r1.value !in senders {
        SendersAccounted(env, received, s1, sp, votes[1..], senders + {r1.value});
      }
    }
  }

  /** The lock check is the one step of the handler that touches the vote store. */
  lemma OnlyLockVotesStored(env: Env, s: State, sp: SignedProposal)
    ensures var p, s' := sp.proposal, HandleSignedProposal(env, s, sp).0;
            var s1 := s.(proposals := ProposalsAdd(s.proposals, p.height, p.round, sp).0);
            s'.votes == s.votes || s'.votes == CheckLockVotes(env, s1, p).0.votes
  {
    hide CheckLockVotes, ProposerCheck, ProposalsAdd, CheckPreviousProof;
  }

  lemma ForwardProposalAccounted(env: Env, received: set<SignedProposal>, s: State, sp: SignedProposal)
    requires AllAccounted(received, s) && sp in received
    ensures AllAccounted(received, ForwardProposal(env, s, sp).0)
  {
    hide CollectSenders, StoreAccounted, ProposalsAdd, HandleSignedProposal;
    var p := sp.proposal;
    OnlyLockVotesStored(env, s, sp);
    if p.lockRound.Some? {
      var s1 := s.(proposals := ProposalsAdd(s.proposals, p.height, p.round, sp).0);
      SendersAccounted(env, received, s1, sp, p.lockVotes, {});
    }
  }

  lemma {:induction false} DrainProposalsAccounted(env: Env, received: set<SignedProposal>, s: State,
                                                   cached: seq<Cached>)
    requires AllAccounted(received, s) && forall c | c in cached :: c.signed in received
    ensures AllAccounted(received, DrainProposals(env, s, cached).0)
    decreases |cached|
  {
    if cached != [] {
      hide ForwardProposal, AllAccounted;
      ForwardProposalAccounted(env, received, s, cached[0].signed);
      if ForwardProposal(env, s, cached[0].signed).1.Success? {
        DrainProposalsAccounted(env, received, ForwardProposal(env, s, cached[0].signed).0, cached[1..]);
      }
    }
  }

  lemma CachesAccounted(env: Env, received: set<SignedProposal>, s: State, height: u64)
    requires AllAccounted(received, s)
    ensures AllAccounted(received, SendCacheProposal(env, s, height).0)
    ensures AllAccounted(received, SendCacheVote(env, s, height).0)
  {
    hide StoreAccounted, DrainProposals, DrainVotes;
    if height in s.proposalCache {
      DrainProposalsAccounted(env, received, s.(proposalCache := s.proposalCache - {height}), s.proposalCache[height]);
    }
    if height in s.voteCache {
      DrainVotesAccounted(env, received, s.(voteCache := s.voteCache - {height}), s.voteCache[height]);
    }
  }

  lemma StatusAccounted(env: Env, received: set<SignedProposal>, s: State, rs: Status)
    requires AllAccounted(received, s)
    ensures AllAccounted(received, ReceiveStatus(env, s, rs).0)
  {
    hide SendCacheProposal, SendCacheVote, StoreAccounted, CachedReceived;
    if HandleRichStatus(env, s, rs).1.Success? {
      var entered := Entered(env, s, rs);
      CachesAccounted(env, received, entered, entered.height);
      var drained := SendCacheProposal(env, entered, entered.height).0;
      CachesAccounted(env, received, drained, drained.height);
    }
  }

  lemma ReceiveProposalAccounted(env: Env, received: set<SignedProposal>, s: State, bytes: Bytes)
    requires AllAccounted(received, s)
    requires var decoded := DecodeProposalMessage(env, bytes); decoded.Success? ==> decoded.value.0 in received
    ensures AllAccounted(received, ReceiveProposal(env, s, bytes).0)
  {
    hide ForwardProposal, DecodeProposalMessage, StoreAccounted;
    var decoded := DecodeProposalMessage(env, bytes);
    if decoded.Success? {
      var s1 := s.(origin := OrInsert(s.origin, decoded.value.2, decoded.value.1));
      ForwardProposalAccounted(env, received, s1, decoded.value.0);
    }
  }

  lemma ProposalAccounted(env: Env, received: set<SignedProposal>, s: State, p: BftProposal)
    requires AllAccounted(received, s)
    ensures AllAccounted(received, HandleProposal(env, s, p).0)
  {
    hide StoreAccounted, StoreGet, LookUpVotes, EncodeProposalMessage, ProposalsAdd;
    GetAccounted(received, s.votes, p.height, p.round, Prevote);
  }

  lemma VoteAccounted(env: Env, received: set<SignedProposal>, s: State, v: BftVote)
    requires AllAccounted(received, s)
    ensures AllAccounted(received, HandleVote(env, s, v).0)
  {
    hide StoreAccounted, StoreAdd;
    forall sv { AddAccounted(received, s.votes, v.height, v.round, v.voteType, v, sv); }
  }

  lemma CommitAccounted(env: Env, received: set<SignedProposal>, s: State, c: BftCommit)
    requires AllAccounted(received, s)
    ensures AllAccounted(received, HandleCommit(env, s, c).0)
  {
    hide StoreAccounted, StoreGet, CollectSignatures;
    GetAccounted(received, s.votes, c.height, c.round, Precommit);
  }

  lemma ProcessAccounted(env: Env, received: set<SignedProposal>, s: State, i: Input)
    requires AllAccounted(received, s)
    requires i.PeerProposal? && DecodeProposalMessage(env, i.bytes).Success? ==>
               DecodeProposalMessage(env, i.bytes).value.0 in received
    ensures AllAccounted(received, Process(env, s, i).0)
  {
    hide ReceiveProposal, ForwardVote, ReceiveStatus, HandleProposal, HandleVote, HandleCommit, StoreAccounted,
         DecodeProposalMessage;
    match i {
      case PeerProposal(bytes) => ReceiveProposalAccounted(env, received, s, bytes);
      case PeerVote(bytes) => forall sv { ForwardVoteAccounted(env, received, s, sv); }
      case NewStatus(rs) => StatusAccounted(env, received, s, rs);
      case CoreProposal(p) => ProposalAccounted(env, received, s, p);
      case CoreVote(v) => VoteAccounted(env, received, s, v);
      case Committed(c, answer) =>
        CommitAccounted(env, received, s, c);
        if answer.Some? { StatusAccounted(env, received, HandleCommit(env, s, c).0, answer.value); }
      case _ =>
    }
  }

  /** In every run each stored prevote is accounted for. */
  lemma {:induction false} RunAccounted(env: Env, inputs: seq<Input>)
    ensures AllAccounted(Received(env, inputs), Run(env, inputs))
  {
    if inputs != [] {
      hide Process, DecodeProposalMessage, AllAccounted;
      var before := inputs[..|inputs| - 1];
      RunAccounted(env, before);
      MoreReceived(Received(env, before), Received(env, inputs), Run(env, before));
      ProcessAccounted(env, Received(env, inputs), Run(env, before), inputs[|inputs| - 1]);
    }
  }

  // ---- proposing a locked block again

  /** In every run, lock votes are found for a proposal only if each of them is a vote
      of the proposal's own height and round, or was shown by a received proposal
      that claimed a lock at that very round. */
  lemma LockVotesFoundOnlyIf(env: Env, inputs: seq<Input>, p: BftProposal)
    requires env.SignsForItself() && OwnVotes(env, inputs) && p.lockRound.Some?
    requires FindLockVotes(Run(env, inputs), p).1.Success?
    ensures forall v | v in p.lockVotes :: Accounted(Received(env, inputs), p.height, p.round, v)
  {
    hide Run, Received, Slot, Accounted, FindLockVotes, Peek;
    RunSound(env, inputs);
    RunAccounted(env, inputs);
    LockVotesFoundIff(env, Run(env, inputs), p);
  }

  /** So a node whose core is locked at an earlier round cannot propose the block
      again, even with every lock vote stored at the lock round, unless it has
      received a proposal claiming a lock at the round it is only now proposing in. */
  lemma ReproposalFails(env: Env, inputs: seq<Input>, p: BftProposal)
    requires env.SignsForItself() && OwnVotes(env, inputs)
    requires p.lockRound.Some? && p.lockRound.value != p.round && p.lockVotes != []
    requires forall v | v in p.lockVotes :: v.round == p.lockRound.value
    requires forall sp | sp in Received(env, inputs) ::
               sp.proposal.height != p.height || sp.proposal.lockRound != Some(p.round)
    ensures FindLockVotes(Run(env, inputs), p).1.Failure? && HandleProposal(env, Run(env, inputs), p).1.Failure?
  {
    var s := Run(env, inputs);
    if HandleProposal(env, s, p).1.Success? { FindingNeeded(env, s, p); }
    if FindLockVotes(s, p).1.Success? {
      hide Run, FindLockVotes, Received;
      LockVotesFoundOnlyIf(env, inputs, p);
      NotAccounted(Received(env, inputs), p, p.lockVotes[0]);
    }
  }

  lemma NotAccounted(received: set<SignedProposal>, p: BftProposal, v: BftVote)
    requires v.round != p.round
    requires forall sp | sp in received :: sp.proposal.height != p.height || sp.proposal.lockRound != Some(p.round)
    ensures !Accounted(received, p.height, p.round, v)
  {
  }

  lemma FindingNeeded(env: Env, s: State, p: BftProposal)
    requires HandleProposal(env, s, p).1.Success?
    ensures FindLockVotes(s, p).1.Success?
  {
    hide FindLockVotes, EncodeProposalMessage;
  }
}
