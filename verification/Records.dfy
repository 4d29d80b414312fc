/** The two records of a run that nothing else tells of: the verdicts on blocks and the
    index of proposals. */
module Records {
  import opened Prelude
  import opened Types
  import opened Env
  import opened LruCache
  import opened Collection
  import opened Authority
  import opened Engine
  import opened Safety
  import opened History
  import opened Delivery
  import opened Acceptance
  import opened EndToEnd
  import opened Outcomes
  import Codec

  // ---- verdicts

  /** The first verdict on a block that came since the present height was entered. */
  function FirstVerdict(env: Env, inputs: seq<Input>, hash: Hash): Option<bool> {
    if inputs == [] then None
    else
      var n, last := |inputs| - 1, inputs[|inputs| - 1];
      if Run(env, inputs).height != Run(env, inputs[..n]).height then None
      else if FirstVerdict(env, inputs[..n], hash).Some? then FirstVerdict(env, inputs[..n], hash)
      else if last.Verified? && last.vr.proposal == hash then Some(last.vr.isPass) else None
  }

  lemma VerdictsMove(env: Env, s: State, i: Input)
    ensures var s' := Process(env, s, i).0;
            s'.verified == if s'.height != s.height then map[]
                           else if i.Verified? && i.vr.proposal !in s.verified
                           then s.verified[i.vr.proposal := i.vr.isPass] else s.verified
  {
    hide ReceiveProposal, ReceiveVote, ReceiveStatus, HandleCommit, HandleVote, HandleProposal;
    match i {
      case PeerProposal(bytes) => FrameSettlesVerdicts(env, s, bytes);
      case PeerVote(bytes) => VoteSettlesVerdicts(env, s, bytes);
      case NewStatus(rs) => StatusMovesOn(env, s, rs); StatusRemembers(env, s, rs);
      case Committed(c, answer) =>
        if answer.Some? {
          StatusMovesOn(env, HandleCommit(env, s, c).0, answer.value);
          StatusRemembers(env, HandleCommit(env, s, c).0, answer.value);
        }
      case _ =>
    }
  }

  lemma FrameSettlesVerdicts(env: Env, s: State, bytes: Bytes)
    ensures var s' := ReceiveProposal(env, s, bytes).0;
            s'.verified == s.verified && s'.height == s.height
  {
    hide ForwardProposal, DecodeProposalMessage;
    var decoded := DecodeProposalMessage(env, bytes);
    if decoded.Success? {
      ForwardProposalSettles(env, s.(origin := OrInsert(s.origin, decoded.value.2, decoded.value.1)), decoded.value.0);
    }
  }

  lemma VoteSettlesVerdicts(env: Env, s: State, bytes: Bytes)
    ensures var s' := ReceiveVote(env, s, bytes).0;
            s'.verified == s.verified && s'.height == s.height
  {
    hide ForwardVote;
    forall sv { ForwardVoteSettles(env, s, sv); }
  }

  /** In every run a node knows exactly the first verdict of the present height on each
      block. */
  lemma {:induction false} RunVerdicts(env: Env, inputs: seq<Input>, hash: Hash)
    ensures var verified, first := Run(env, inputs).verified, FirstVerdict(env, inputs, hash);
            (hash in verified <==> first.Some?) && (first.Some? ==> verified[hash] == first.value)
  {
    if inputs != [] {
      var before, last := inputs[..|inputs| - 1], inputs[|inputs| - 1];
      RunVerdicts(env, before, hash);
      VerdictsMove(env, Run(env, before), last);
      assert Run(env, inputs) == Process(env, Run(env, before), last).0;
      hide Run, Process;
    }
  }

  // ---- the index of proposals

  /** What a proposal must satisfy to be indexed, whether or not it is passed on. */
  predicate Indexable(env: Env, s: State, sp: SignedProposal) {
    env.AuthenticProposal(sp) && s.height > 0 && sp.proposal.height + 1 >= s.height && env.logs(LogSignedProposal(sp))
  }

  function IndexAfter(st: ProposalStore, sps: seq<SignedProposal>): ProposalStore {
    if sps == [] then st
    else
      var last := sps[|sps| - 1];
      ProposalsAdd(IndexAfter(st, sps[..|sps| - 1]), last.proposal.height, last.proposal.round, last).0
  }

  ghost function StatusIndexes(env: Env, s: State, rs: Status): seq<SignedProposal> {
    var at := rs.height + 1;
    if Accepts(env, s, rs) && at in s.proposalCache && s.proposalCache[at] != []
       && Indexable(env, Entered(env, s, rs), s.proposalCache[at][0].signed)
    then [s.proposalCache[at][0].signed] else []
  }

  /** The proposals that a message has indexed: one from a peer that is not kept for
      later, the first one cached for a height that is entered, or the node's own. */
  ghost function Indexes(env: Env, s: State, i: Input): seq<SignedProposal> {
    match i
    case PeerProposal(bytes) =>
      var decoded := DecodeProposalMessage(env, bytes);
      if decoded.Failure? then []
      else
        var sp := decoded.value.0;
        if s.height < sp.proposal.height < s.height + 16 || !Indexable(env, s, sp) then [] else [sp]
    case NewStatus(rs) => StatusIndexes(env, s, rs)
    case Committed(c, answer) =>
      var (s', r) := HandleCommit(env, s, c);
      if r.Success? && answer.Some? then StatusIndexes(env, s', answer.value) else []
    case CoreProposal(p) =>
      var built := BuildSignedProposal(env, s, p).1;
      if p.height == s.height && env.logs(LogProposal(p)) && built.Success? then [built.value] else []
    case _ => []
  }

  lemma IndexOne(st: ProposalStore, sp: SignedProposal)
    ensures IndexAfter(st, []) == st
    ensures IndexAfter(st, [sp]) == ProposalsAdd(st, sp.proposal.height, sp.proposal.round, sp).0
  {
    assert [sp][..0] == [];
  }

  lemma {:induction false} IndexJoins(st: ProposalStore, a: seq<SignedProposal>, b: seq<SignedProposal>)
    ensures IndexAfter(st, a + b) == IndexAfter(IndexAfter(st, a), b)
  {
    hide ProposalsAdd;
    if b == [] {
      assert a + b == a;
    } else {
      var init, last := b[..|b| - 1], b[|b| - 1];
      assert (a + b)[..|a + b| - 1] == a + init && (a + b)[|a + b| - 1] == last;
      IndexJoins(st, a, init);
    }
  }

  lemma HandledIndexes(env: Env, s: State, sp: SignedProposal)
    ensures HandleSignedProposal(env, s, sp).0.proposals ==
            if Indexable(env, s, sp) then ProposalsAdd(s.proposals, sp.proposal.height, sp.proposal.round, sp).0
            else s.proposals
  {
    hide CheckLockVotes, ProposerCheck, ProposalsAdd, CheckPreviousProof;
  }

  lemma ForwardIndexes(env: Env, s: State, sp: SignedProposal)
    ensures ForwardProposal(env, s, sp).0.proposals ==
            IndexAfter(s.proposals, if Indexable(env, s, sp) then [sp] else [])
  {
    HandledIndexes(env, s, sp);
    ForwardHandles(env, s, sp);
    IndexOne(s.proposals, sp);
    hide HandleSignedProposal, ForwardProposal, ProposalsAdd, IndexAfter, Indexable;
  }

  lemma FrameIndexes(env: Env, s: State, bytes: Bytes)
    ensures ReceiveProposal(env, s, bytes).0.proposals == IndexAfter(s.proposals, Indexes(env, s, PeerProposal(bytes)))
  {
    var decoded := DecodeProposalMessage(env, bytes);
    if decoded.Success? {
      var (sp, block, hash) := decoded.value;
      ForwardIndexes(env, s.(origin := OrInsert(s.origin, hash, block)), sp);
      IndexOne(s.proposals, sp);
    }
    hide ForwardProposal, DecodeProposalMessage, ProposalsAdd;
  }

  lemma {:induction false} DrainVotesIndexNothing(env: Env, s: State, votes: seq<SignedVote>)
    ensures DrainVotes(env, s, votes).0.proposals == s.proposals
    decreases |votes|
  {
    if votes != [] {
      hide HandleSignedVote;
      var (s1, r) := ForwardVote(env, s, votes[0]);
      if r.Success? { DrainVotesIndexNothing(env, s1, votes[1..]); }
    }
  }

  /** Of the proposals cached for the height just entered only the first is looked at. */
  lemma FirstCachedIndexed(env: Env, s: State, cached: seq<Cached>)
    requires cached != [] && cached[0].signed.proposal.height == s.height
    requires s.verified == map[] && s.origin == map[]
    ensures DrainProposals(env, s, cached).0.proposals ==
            IndexAfter(s.proposals, if Indexable(env, s, cached[0].signed) then [cached[0].signed] else [])
  {
    ForwardIndexes(env, s, cached[0].signed);
    BlockLost(env, s, cached[0].signed);
    ForwardHandles(env, s, cached[0].signed);
    hide ForwardProposal, HandleSignedProposal, IndexAfter, Indexable;
  }

  lemma CachesIndex(env: Env, s: State)
    requires ProposalCacheSound(s.proposalCache) && s.verified == map[] && s.origin == map[]
    ensures var (s', r) := SendCacheProposal(env, s, s.height);
            (if r.Failure? then s' else SendCacheVote(env, s', s'.height).0).proposals ==
              IndexAfter(s.proposals, if s.height in s.proposalCache && s.proposalCache[s.height] != []
                                         && Indexable(env, s, s.proposalCache[s.height][0].signed)
                                      then [s.proposalCache[s.height][0].signed] else [])
  {
    var h := s.height;
    if h in s.proposalCache {
      var cached := s.proposalCache[h];
      assert cached[0] in cached;
      var s1 := s.(proposalCache := s.proposalCache - {h});
      FirstCachedIndexed(env, s1, cached);
      CachedProposalRefused(env, s1, cached);
    } else if h in s.voteCache {
      DrainVotesIndexNothing(env, s.(voteCache := s.voteCache - {h}), s.voteCache[h]);
    }
    hide DrainProposals, DrainVotes, ProposalsAdd;
  }

  lemma StatusIndexing(env: Env, s: State, rs: Status)
    requires ProposalCacheSound(s.proposalCache)
    ensures ReceiveStatus(env, s, rs).0.proposals == IndexAfter(s.proposals, StatusIndexes(env, s, rs))
  {
    hide SendCacheProposal, SendCacheVote, ProposalCacheSound, IndexAfter, Indexable;
    if Accepts(env, s, rs) {
      CachesIndex(env, Entered(env, s, rs));
    } else {
      NothingIndexed(s.proposals);
    }
  }

  lemma NothingIndexed(st: ProposalStore)
    ensures IndexAfter(st, []) == st
  {
  }

  lemma OwnIndexes(env: Env, s: State, p: BftProposal)
    requires Inv(env, s)
    ensures HandleProposal(env, s, p).0.proposals == IndexAfter(s.proposals, Indexes(env, s, CoreProposal(p)))
  {
    BuiltIs(env, s, p);
    var built := BuildSignedProposal(env, s, p).1;
    NothingIndexed(s.proposals);
    if built.Success? { IndexOne(s.proposals, built.value); }
    hide BuildSignedProposal, EncodeProposalMessage, ProposalsAdd, IndexAfter, Inv, LockVotesStored;
  }

  lemma OthersIndexNothing(env: Env, s: State, i: Input)
    requires i.PeerVote? || i.CoreVote? || i.ProposalRequest? || i.Verified? || i.Fed?
    ensures Process(env, s, i).0.proposals == s.proposals
  {
    hide HandleSignedVote, HandleVote, Codec.DecodeSignedVote;
  }

  lemma CommitIndexes(env: Env, s: State, c: BftCommit, answer: Option<Status>)
    requires ProposalCacheSound(s.proposalCache)
    ensures CoreCommit(env, s, c, answer).0.proposals ==
            IndexAfter(s.proposals, Indexes(env, s, Committed(c, answer)))
  {
    NothingIndexed(s.proposals);
    if answer.Some? { StatusIndexing(env, HandleCommit(env, s, c).0, answer.value); }
    hide ReceiveStatus, HandleCommit, IndexAfter, StatusIndexes, ProposalCacheSound;
  }

  lemma ProcessIndexes(env: Env, s: State, i: Input)
    requires Inv(env, s)
    ensures Process(env, s, i).0.proposals == IndexAfter(s.proposals, Indexes(env, s, i))
  {
    hide ReceiveProposal, ReceiveVote, ReceiveStatus, HandleProposal, HandleVote, CoreCommit, IndexAfter, StatusIndexes,
         BuildSignedProposal, DecodeProposalMessage, HandleCommit, Indexable;
    NothingIndexed(s.proposals);
    match i {
      case PeerProposal(bytes) => FrameIndexes(env, s, bytes);
      case NewStatus(rs) => StatusIndexing(env, s, rs);
      case CoreProposal(p) => OwnIndexes(env, s, p);
      case Committed(c, answer) => CommitIndexes(env, s, c, answer);
      case _ => OthersIndexNothing(env, s, i);
    }
  }

  ghost function RunIndexes(env: Env, inputs: seq<Input>): seq<SignedProposal> {
    if inputs == [] then []
    else
      var before := inputs[..|inputs| - 1];
      RunIndexes(env, before) + Indexes(env, Run(env, before), inputs[|inputs| - 1])
  }

  /** In every run the index of proposals is what adding these, in order, makes it. */
  lemma {:induction false} RunIndexed(env: Env, inputs: seq<Input>)
    requires env.SignsForItself() && OwnVotes(env, inputs)
    ensures Run(env, inputs).proposals == IndexAfter(EmptyLru(), RunIndexes(env, inputs))
  {
    if inputs != [] {
      var before, last := inputs[..|inputs| - 1], inputs[|inputs| - 1];
      RunIndexed(env, before);
      RunSound(env, before);
      ProcessIndexes(env, Run(env, before), last);
      IndexJoins(EmptyLru(), RunIndexes(env, before), Indexes(env, Run(env, before), last));
      assert Run(env, inputs) == Process(env, Run(env, before), last).0;
      hide Run, Process, Inv, Indexes, IndexAfter, Env.SignsForItself;
    }
  }
}
