/** The vote index of a running node: the history of uses that its messages make of it,
    so that what is known of all histories holds of all runs. */
module RunIndex {
  import opened Prelude
  import opened Types
  import opened Env
  import opened LruCache
  import opened Collection
  import opened Authority
  import opened VoteIndex
  import opened Retention
  import opened Engine
  import opened Safety
  import opened History
  import opened Acceptance
  import Codec

  /** The index after some more uses. */
  function After(st: VoteStore, uses: seq<Use>): VoteStore {
    if uses == [] then st else Apply(After(st, uses[..|uses| - 1]), uses[|uses| - 1])
  }

  lemma {:induction false} AfterJoins(st: VoteStore, a: seq<Use>, b: seq<Use>)
    ensures After(st, a + b) == After(After(st, a), b)
  {
    hide Apply;
    if b == [] {
      assert a + b == a;
    } else {
      var init, last := b[..|b| - 1], b[|b| - 1];
      assert (a + b)[..|a + b| - 1] == a + init && (a + b)[|a + b| - 1] == last;
      AfterJoins(st, a, init);
    }
  }

  lemma AfterOne(st: VoteStore, u: Use)
    ensures After(st, [u]) == Apply(st, u) && After(st, []) == st
  {
    assert [u][..0] == [];
  }

  lemma {:induction false} BoundedIsAfter(uses: seq<Use>)
    ensures Bounded(uses) == After(EmptyLru(), uses)
  {
    hide Apply;
    if uses != [] { BoundedIsAfter(uses[..|uses| - 1]); }
  }

  // ---- what each handler uses

  function VoteUses(env: Env, s: State, sv: SignedVote): seq<Use> {
    var v := sv.vote;
    if Storable(env, s, sv) then [AddVote(v.height, v.round, v.voteType, ToBftVote(v), sv)] else []
  }

  /** Lock votes are added one by one until one is refused or repeats a voter. */
  ghost function LockUses(env: Env, under: Authority, p: Proposal, votes: seq<SignedVote>, senders: set<Address>)
      : seq<Use>
    requires p.lockRound.Some?
  {
    if votes == [] || !LockVoteOk(env, under, p, votes[0]) then []
    else
      var v := votes[0].vote;
      [AddVote(p.height, p.lockRound.value, Prevote, ToBftVote(v), votes[0])] +
      if v.voter in senders then [] else LockUses(env, under, p, votes[1..], senders + {v.voter})
  }

  ghost function ProposalUses(env: Env, s: State, sp: SignedProposal): seq<Use> {
    if Gated(env, s, sp) && sp.proposal.lockRound.Some?
    then LockUses(env, s.authority, sp.proposal, sp.proposal.lockVotes, {}) else []
  }

  ghost function DrainVoteUses(env: Env, s: State, votes: seq<SignedVote>): seq<Use>
    decreases |votes|
  {
    if votes == [] then []
    else
      var (s', r) := ForwardVote(env, s, votes[0]);
      VoteUses(env, s, votes[0]) + if r.Failure? then [] else DrainVoteUses(env, s', votes[1..])
  }

  ghost function DrainProposalUses(env: Env, s: State, cached: seq<Cached>): seq<Use>
    decreases |cached|
  {
    if cached == [] then []
    else
      var (s', r) := ForwardProposal(env, s, cached[0].signed);
      ProposalUses(env, s, cached[0].signed) + if r.Failure? then [] else DrainProposalUses(env, s', cached[1..])
  }

  ghost function CacheUses(env: Env, s: State): seq<Use> {
    var h := s.height;
    var (s', r) := SendCacheProposal(env, s, h);
    (if h in s.proposalCache
     then DrainProposalUses(env, s.(proposalCache := s.proposalCache - {h}), s.proposalCache[h]) else []) +
    if r.Success? && s'.height in s'.voteCache
    then DrainVoteUses(env, s'.(voteCache := s'.voteCache - {s'.height}), s'.voteCache[s'.height]) else []
  }

  ghost function StatusUses(env: Env, s: State, rs: Status): seq<Use> {
    if HandleRichStatus(env, s, rs).1.Success? then CacheUses(env, Entered(env, s, rs)) else []
  }

  /** A lookup of lock votes happens once a proof is at hand. */
  function LookupUses(env: Env, s: State, p: BftProposal): seq<Use> {
    if p.height == s.height && env.logs(LogProposal(p)) && (s.proof.Some? || s.height == 1) && p.lockRound.Some?
    then [GetVotes(p.height, p.round, Prevote)] else []
  }

  function OwnVoteUses(env: Env, s: State, v: BftVote): seq<Use> {
    var vote := FromBftVote(v, v.voteType);
    var signature := env.sign(env.VoteDigest(vote));
    if v.height >= s.height && env.logs(LogVote(v)) && signature.Some?
    then [AddVote(v.height, v.round, v.voteType, v, SignedVote(vote, signature.value))] else []
  }

  function CommitUses(env: Env, s: State, c: BftCommit): seq<Use> {
    if c.height >= s.height && env.logs(LogCommit(c)) && c.proposal in s.origin
    then [GetVotes(c.height, c.round, Precommit)] else []
  }

  ghost function Uses(env: Env, s: State, i: Input): seq<Use> {
    match i
    case PeerProposal(bytes) =>
      var decoded := DecodeProposalMessage(env, bytes);
      if decoded.Failure? || s.height < decoded.value.0.proposal.height < s.height + 16 then []
      else ProposalUses(env, s, decoded.value.0)
    case PeerVote(bytes) =>
      if env.unrlp(bytes).None? || Codec.DecodeSignedVote(env.unrlp(bytes).value).Failure? then []
      else VoteUses(env, s, Codec.DecodeSignedVote(env.unrlp(bytes).value).value)
    case NewStatus(rs) => StatusUses(env, s, rs)
    case CoreProposal(p) => LookupUses(env, s, p)
    case CoreVote(v) => OwnVoteUses(env, s, v)
    case Committed(c, answer) =>
      var (s', r) := HandleCommit(env, s, c);
      CommitUses(env, s, c) + if r.Success? && answer.Some? then StatusUses(env, s', answer.value) else []
    case _ => []
  }

  /** The uses that a run has made of its index, oldest first. */
  ghost function RunUses(env: Env, inputs: seq<Input>): seq<Use> {
    if inputs == [] then []
    else RunUses(env, inputs[..|inputs| - 1]) + Uses(env, Run(env, inputs[..|inputs| - 1]), inputs[|inputs| - 1])
  }

  // ---- each handler uses the index so

  lemma ForwardVoteUses(env: Env, s: State, sv: SignedVote)
    ensures ForwardVote(env, s, sv).0.votes == After(s.votes, VoteUses(env, s, sv))
  {
    var v := sv.vote;
    AfterOne(s.votes, AddVote(v.height, v.round, v.voteType, ToBftVote(v), sv));
    hide StoreAdd;
  }

  lemma {:induction false} DrainVotesUses(env: Env, s: State, votes: seq<SignedVote>)
    ensures DrainVotes(env, s, votes).0.votes == After(s.votes, DrainVoteUses(env, s, votes))
    decreases |votes|
  {
    if votes != [] {
      var (s1, r) := ForwardVote(env, s, votes[0]);
      ForwardVoteUses(env, s, votes[0]);
      if r.Success? { DrainVotesUses(env, s1, votes[1..]); }
      var first, rest := VoteUses(env, s, votes[0]), DrainVoteUses(env, s1, votes[1..]);
      AfterJoins(s.votes, first, rest);
      assert first + [] == first;
      hide ForwardVote, VoteUses, After;
    }
  }

  lemma LockVoteUse(env: Env, s: State, p: Proposal, round: u64, sv: SignedVote)
    requires s.height > 0 && p.height >= s.height - 1
    ensures var (s', r) := CheckSignedVote(env, s, p.height, round, p.hash, sv);
            && (r.Success? <==> LockVoteOk(env, s.authority, p, sv))
            && (r.Success? ==> r.value == sv.vote.voter
                               && s'.votes == Apply(s.votes, AddVote(p.height, round, Prevote, ToBftVote(sv.vote), sv)))
            && (r.Failure? ==> s' == s) && s'.height == s.height && s'.authority == s.authority
  {
    hide StoreAdd;
  }

  lemma {:induction false} LockVotesUses(env: Env, s: State, p: Proposal, votes: seq<SignedVote>, senders: set<Address>)
    requires p.lockRound.Some? && s.height > 0 && p.height >= s.height - 1
    ensures CollectSenders(env, s, p.height, p.lockRound.value, p.hash, votes, senders).0.votes
            == After(s.votes, LockUses(env, s.authority, p, votes, senders))
    decreases |votes|
  {
    if votes != [] {
      var round, sv := p.lockRound.value, votes[0];
      var (s1, r) := CheckSignedVote(env, s, p.height, round, p.hash, sv);
      LockVoteUse(env, s, p, round, sv);
      CollectSendersTurn(env, s, p, round, votes, senders);
      var use, more := AddVote(p.height, round, Prevote, ToBftVote(sv.vote), sv), senders + {sv.vote.voter};
      if r.Success? && sv.vote.voter !in senders { LockVotesUses(env, s1, p, votes[1..], more); }
      AfterOne(s.votes, use);
      AfterJoins(s.votes, [use], LockUses(env, s.authority, p, votes[1..], more));
      assert [use] + [] == [use];
      hide CheckSignedVote, CollectSenders, LockVoteOk, After, Apply;
    }
  }

  lemma CheckLockVotesUses(env: Env, s: State, p: Proposal)
    requires s.height > 0 && p.height >= s.height - 1
    ensures CheckLockVotes(env, s, p).0.votes ==
            After(s.votes, if p.lockRound.Some? then LockUses(env, s.authority, p, p.lockVotes, {}) else [])
  {
    AfterOne(s.votes, GetVotes(0, 0, Prevote));
    hide CollectSenders, LockUses, After;
    if p.lockRound.Some? { LockVotesUses(env, s, p, p.lockVotes, {}); }
  }

  lemma ForwardProposalUses(env: Env, s: State, sp: SignedProposal)
    ensures ForwardProposal(env, s, sp).0.votes == After(s.votes, ProposalUses(env, s, sp))
  {
    AfterOne(s.votes, GetVotes(0, 0, Prevote));
    GatedBounds(env, s, sp);
    ForwardHandles(env, s, sp);
    GateDecides(env, s, sp);
    hide HandleSignedProposal, ForwardProposal, CheckLockVotes, LockUses, ProposalsAdd, After, Gated;
    var p := sp.proposal;
    if Gated(env, s, sp) {
      CheckLockVotesUses(env, s.(proposals := ProposalsAdd(s.proposals, p.height, p.round, sp).0), p);
    }
  }

  lemma GatedBounds(env: Env, s: State, sp: SignedProposal)
    ensures Gated(env, s, sp) ==> s.height > 0 && sp.proposal.height >= s.height - 1
  {
  }

  /** The vote store is touched by the lock check alone, and only behind the gate. */
  lemma GateDecides(env: Env, s: State, sp: SignedProposal)
    ensures var p, s' := sp.proposal, HandleSignedProposal(env, s, sp).0;
            var s1 := s.(proposals := ProposalsAdd(s.proposals, p.height, p.round, sp).0);
            s'.votes == if Gated(env, s, sp) then CheckLockVotes(env, s1, p).0.votes else s.votes
  {
    hide CheckLockVotes, ProposerCheck, ProposalsAdd, CheckPreviousProof;
  }

  lemma {:induction false} DrainProposalsUses(env: Env, s: State, cached: seq<Cached>)
    ensures DrainProposals(env, s, cached).0.votes == After(s.votes, DrainProposalUses(env, s, cached))
    decreases |cached|
  {
    if cached != [] {
      var (s1, r) := ForwardProposal(env, s, cached[0].signed);
      ForwardProposalUses(env, s, cached[0].signed);
      if r.Success? { DrainProposalsUses(env, s1, cached[1..]); }
      var first, rest := ProposalUses(env, s, cached[0].signed), DrainProposalUses(env, s1, cached[1..]);
      AfterJoins(s.votes, first, rest);
      assert first + [] == first;
      hide ForwardProposal, ProposalUses, After;
    }
  }

  lemma CachesUse(env: Env, s: State)
    ensures var (s', r) := SendCacheProposal(env, s, s.height);
            (if r.Failure? then s' else SendCacheVote(env, s', s'.height).0).votes == After(s.votes, CacheUses(env, s))
  {
    var h := s.height;
    var first := if h in s.proposalCache
                 then DrainProposalUses(env, s.(proposalCache := s.proposalCache - {h}), s.proposalCache[h]) else [];
    if h in s.proposalCache {
      DrainProposalsUses(env, s.(proposalCache := s.proposalCache - {h}), s.proposalCache[h]);
    }
    var (s', r) := SendCacheProposal(env, s, h);
    assert s'.votes == After(s.votes, first);
    if r.Success? && s'.height in s'.voteCache {
      var s1, votes := s'.(voteCache := s'.voteCache - {s'.height}), s'.voteCache[s'.height];
      DrainVotesUses(env, s1, votes);
      AfterJoins(s.votes, first, DrainVoteUses(env, s1, votes));
    }
    assert first + [] == first;
    hide DrainProposals, DrainVotes, DrainProposalUses, DrainVoteUses, Apply;
  }

  lemma StatusUsesIndex(env: Env, s: State, rs: Status)
    ensures ReceiveStatus(env, s, rs).0.votes == After(s.votes, StatusUses(env, s, rs))
  {
    if HandleRichStatus(env, s, rs).1.Success? {
      CachesUse(env, Entered(env, s, rs));
    }
    hide SendCacheProposal, SendCacheVote, CacheUses, Apply;
  }

  lemma ProposingUses(env: Env, s: State, p: BftProposal)
    ensures HandleProposal(env, s, p).0.votes == After(s.votes, LookupUses(env, s, p))
  {
    AfterOne(s.votes, GetVotes(p.height, p.round, Prevote));
    hide StoreGet, LookUpVotes, EncodeProposalMessage, ProposalsAdd, After;
  }

  lemma VotingUses(env: Env, s: State, v: BftVote)
    ensures HandleVote(env, s, v).0.votes == After(s.votes, OwnVoteUses(env, s, v))
  {
    var signature := env.sign(env.VoteDigest(FromBftVote(v, v.voteType)));
    if signature.Some? {
      var signed := SignedVote(FromBftVote(v, v.voteType), signature.value);
      AfterOne(s.votes, AddVote(v.height, v.round, v.voteType, v, signed));
    }
    AfterOne(s.votes, GetVotes(0, 0, Prevote));
    hide StoreAdd, After;
  }

  lemma CommittingUses(env: Env, s: State, c: BftCommit)
    ensures HandleCommit(env, s, c).0.votes == After(s.votes, CommitUses(env, s, c))
  {
    AfterOne(s.votes, GetVotes(c.height, c.round, Precommit));
    hide StoreGet, CollectSignatures, After;
  }

  lemma ProcessUses(env: Env, s: State, i: Input)
    ensures Process(env, s, i).0.votes == After(s.votes, Uses(env, s, i))
  {
    match i {
      case PeerProposal(bytes) => FrameUses(env, s, bytes);
      case PeerVote(bytes) =>
        if env.unrlp(bytes).Some? && Codec.DecodeSignedVote(env.unrlp(bytes).value).Success? {
          ForwardVoteUses(env, s, Codec.DecodeSignedVote(env.unrlp(bytes).value).value);
        }
      case NewStatus(rs) => StatusUsesIndex(env, s, rs);
      case CoreProposal(p) => ProposingUses(env, s, p);
      case CoreVote(v) => VotingUses(env, s, v);
      case Committed(c, answer) => CoreCommitUses(env, s, c, answer);
      case _ =>
    }
    hide ReceiveProposal, ForwardVote, ReceiveStatus, HandleProposal, HandleVote, CoreCommit, VoteUses, StatusUses,
         LookupUses, OwnVoteUses, Codec.DecodeSignedVote, DecodeProposalMessage, ProposalUses;
  }

  lemma FrameUses(env: Env, s: State, bytes: Bytes)
    ensures ReceiveProposal(env, s, bytes).0.votes == After(s.votes, Uses(env, s, PeerProposal(bytes)))
  {
    var decoded := DecodeProposalMessage(env, bytes);
    if decoded.Success? {
      var (sp, block, hash) := decoded.value;
      ForwardProposalUses(env, s.(origin := OrInsert(s.origin, hash, block)), sp);
    }
    hide ForwardProposal, DecodeProposalMessage, LockUses;
  }

  lemma CoreCommitUses(env: Env, s: State, c: BftCommit, answer: Option<Status>)
    ensures CoreCommit(env, s, c, answer).0.votes == After(s.votes, Uses(env, s, Committed(c, answer)))
  {
    hide HandleCommit, ReceiveStatus, CommitUses, StatusUses, After;
    var (s1, r) := HandleCommit(env, s, c);
    CommittingUses(env, s, c);
    if r.Success? && answer.Some? {
      StatusUsesIndex(env, s1, answer.value);
      AfterJoins(s.votes, CommitUses(env, s, c), StatusUses(env, s1, answer.value));
    }
    assert CommitUses(env, s, c) + [] == CommitUses(env, s, c);
  }

  /** The index of every run is the bounded index after the run's uses. */
  lemma {:induction false} RunIsBounded(env: Env, inputs: seq<Input>)
    ensures Run(env, inputs).votes == Bounded(RunUses(env, inputs))
  {
    BoundedIsAfter(RunUses(env, inputs));
    if inputs != [] {
      var before, last := inputs[..|inputs| - 1], inputs[|inputs| - 1];
      RunIsBounded(env, before);
      BoundedIsAfter(RunUses(env, before));
      ProcessUses(env, Run(env, before), last);
      AfterJoins(EmptyLru(), RunUses(env, before), Uses(env, Run(env, before), last));
      hide Process, Uses, After, Bounded;
    }
  }

  /** So in every run a lookup answers with the votes added to the slot since it was
      last inserted, and a commit finds its lock votes exactly among these. */
  lemma RunSlotExact(env: Env, inputs: seq<Input>, h: u64, r: u64, t: VoteType)
    ensures StoreGet(Run(env, inputs).votes, h, r, t).1 == Votes(SlotLife(RunUses(env, inputs), h, r), t)
  {
    RunIsBounded(env, inputs);
    SlotExact(RunUses(env, inputs), h, r, t);
  }

  lemma RunCommitIff(env: Env, inputs: seq<Input>, c: BftCommit)
    requires env.SignsForItself() && OwnVotes(env, inputs)
    ensures var s, stored := Run(env, inputs), Votes(SlotLife(RunUses(env, inputs), c.height, c.round), Precommit);
            HandleCommit(env, s, c).1.Success? <==>
            && c.height >= s.height && env.logs(LogCommit(c)) && c.proposal in s.origin
            && stored.Some? && forall v | v in c.lockVotes :: v in stored.value
  {
    RunSound(env, inputs);
    RunSlotExact(env, inputs, c.height, c.round, Precommit);
    hide Run, StoreGet, Peek, Votes, SlotLife;
    GetReads(Run(env, inputs).votes, c.height, c.round, Precommit);
    CommitSucceedsIff(env, Run(env, inputs), c);
  }

  // ---- votes of other rounds

  /** A signed vote of the present height is a use of the index whether or not a member
      has cast it. */
  lemma AnyVoterCounts(env: Env, inputs: seq<Input>, bytes: Bytes, sv: SignedVote)
    requires env.unrlp(bytes).Some? && Codec.DecodeSignedVote(env.unrlp(bytes).value) == Success(sv)
    requires Storable(env, Run(env, inputs), sv)
    ensures RunUses(env, inputs + [PeerVote(bytes)]) ==
            RunUses(env, inputs) + [AddVote(sv.vote.height, sv.vote.round, sv.vote.voteType, ToBftVote(sv.vote), sv)]
  {
    assert (inputs + [PeerVote(bytes)])[..|inputs|] == inputs;
    hide Run, Storable, Codec.DecodeSignedVote;
  }

  /** Votes of a height for rounds other than `r`, no two for one round. */
  ghost predicate OtherRounds(uses: seq<Use>, h: u64, r: u64) {
    && (forall u | u in uses :: u.AddVote? && u.height == h && u.round != r)
    && forall i, j :: 0 <= i < j < |uses| ==> uses[i].round != uses[j].round
  }

  function RoundsIn(uses: seq<Use>): set<u64> { set u | u in uses :: u.round }

  lemma {:induction false} RoundsInCount(uses: seq<Use>, h: u64, r: u64)
    requires OtherRounds(uses, h, r)
    ensures |RoundsIn(uses)| == |uses|
  {
    if uses != [] {
      var before, u := uses[..|uses| - 1], uses[|uses| - 1];
      assert uses == before + [u];
      RoundsInCount(before, h, r);
      assert u.round !in RoundsIn(before);
      assert RoundsIn(uses) == RoundsIn(before) + {u.round};
    }
  }

  /** Whatever came before, such votes press on round `r` of the height. */
  lemma {:induction false} OthersPress(uses: seq<Use>, others: seq<Use>, h: u64, r: u64)
    requires OtherRounds(others, h, r) && others != []
    ensures Kept(ByHeight, uses + others, h)
    ensures RoundsIn(others) <= Pressure(ByRound, Life(ByHeight, uses + others, h), r)
  {
    var before, u := others[..|others| - 1], others[|others| - 1];
    assert others == before + [u] && uses + others == uses + before + [u];
    if before != [] { OthersPress(uses, before, h, r); }
    assert RoundsIn(others) <= RoundsIn(before) + {u.round};
    PressureStep(ByHeight, uses + before, u, h);
    LifeStep(ByHeight, uses + before, u, h);
    PressureStep(ByRound, Life(ByHeight, uses + before, h), u, r);
    hide Life, Pressure, Added;
  }

  /** Votes for sixteen other rounds of a height, by anyone, drop a round of it: its
      lookups find nothing, whatever was stored. */
  lemma CrowdedOut(uses: seq<Use>, others: seq<Use>, h: u64, r: u64, t: VoteType)
    requires OtherRounds(others, h, r) && |others| >= 16
    ensures !SlotKept(uses + others, h, r)
    ensures StoreGet(Bounded(uses + others), h, r, t).1 == None
  {
    OthersPress(uses, others, h, r);
    RoundsInCount(others, h, r);
    SubsetSize(RoundsIn(others), Pressure(ByRound, Life(ByHeight, uses + others, h), r));
    SlotExact(uses + others, h, r, t);
    NoLife(ByRound, Life(ByHeight, uses + others, h), r, t);
    hide Life, Pressure, Bounded, StoreGet;
  }
}
