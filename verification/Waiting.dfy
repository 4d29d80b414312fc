/** What waits in the caches over a whole run, and what is left in them for good. */
module Waiting {
  import opened Prelude
  import opened Types
  import opened Env
  import opened LruCache
  import opened Engine
  import opened Safety
  import opened History
  import opened Delivery
  import opened Acceptance
  import opened EndToEnd
  import Codec

  /** The signed vote that a message brings. */
  function VoteIn(env: Env, i: Input): Option<SignedVote> {
    if !i.PeerVote? || env.unrlp(i.bytes).None? then None
    else
      var sv := Codec.DecodeSignedVote(env.unrlp(i.bytes).value);
      if sv.Success? then Some(sv.value) else None
  }

  /** The message brings a vote to keep for height `k`. */
  predicate VoteJoins(env: Env, s: State, i: Input, k: u64) {
    VoteIn(env, i).Some? && VoteIn(env, i).value.vote.height == k && Keepable(env, s, VoteIn(env, i).value)
  }

  /** The message brings a proposal to keep for height `k`. */
  predicate ProposalJoins(env: Env, s: State, i: Input, k: u64) {
    && i.PeerProposal? && DecodeProposalMessage(env, i.bytes).Success?
    && DecodeProposalMessage(env, i.bytes).value.0.proposal.height == k
    && s.height < k < s.height + 16 && env.logs(LogBytes(i.bytes))
  }

  function ProposalIn(env: Env, bytes: Bytes): Cached
    requires DecodeProposalMessage(env, bytes).Success?
  {
    var (sp, block, _) := DecodeProposalMessage(env, bytes).value;
    Cached(sp, block, bytes)
  }

  /** How the vote cache moves: a vote joins the queue of its height, or a height is
      entered with no proposal waiting for it and its queue is emptied. */
  ghost predicate VotesMove(env: Env, s: State, i: Input, s': State) {
    forall k: u64 :: CachedVotes(s', k) ==
      if VoteJoins(env, s, i, k) then CachedVotes(s, k) + [VoteIn(env, i).value]
      else if s'.height == k != s.height && k !in s.proposalCache then []
      else CachedVotes(s, k)
  }

  /** A proposal joins the queue of its height, or a height is entered and its queue
      is emptied. */
  ghost predicate ProposalsMove(env: Env, s: State, i: Input, s': State) {
    forall k: u64 :: CachedProposals(s', k) ==
      if ProposalJoins(env, s, i, k) then CachedProposals(s, k) + [ProposalIn(env, i.bytes)]
      else if s'.height == k != s.height then []
      else CachedProposals(s, k)
  }

  lemma VoteMoves(env: Env, s: State, bytes: Bytes)
    ensures var s' := ReceiveVote(env, s, bytes).0;
            VotesMove(env, s, PeerVote(bytes), s') && s'.proposalCache == s.proposalCache && s'.height == s.height
  {
    hide HandleSignedVote, Codec.DecodeSignedVote, Keepable;
    if VoteIn(env, PeerVote(bytes)).Some? { VoteCachedIff(env, s, VoteIn(env, PeerVote(bytes)).value); }
  }

  lemma ProposalMoves(env: Env, s: State, bytes: Bytes)
    ensures var s' := ReceiveProposal(env, s, bytes).0;
            ProposalsMove(env, s, PeerProposal(bytes), s') && s'.voteCache == s.voteCache && s'.height == s.height
  {
    ProposalCachedIff(env, s, bytes);
    hide ForwardProposal, DecodeProposalMessage;
    var decoded := DecodeProposalMessage(env, bytes);
    if decoded.Success? {
      ForwardCalm(env, s.(origin := OrInsert(s.origin, decoded.value.2, decoded.value.1)), decoded.value.0);
    }
  }

  lemma ForwardCalm(env: Env, s: State, sp: SignedProposal)
    ensures var s' := ForwardProposal(env, s, sp).0;
            s'.voteCache == s.voteCache && s'.height == s.height
  {
    hide HandleSignedProposal;
  }

  lemma {:induction false} DrainsSettleCaches(env: Env, s: State, votes: seq<SignedVote>, cached: seq<Cached>)
    ensures DrainVotes(env, s, votes).0.proposalCache == s.proposalCache
    ensures DrainProposals(env, s, cached).0.proposalCache == s.proposalCache
    decreases |votes| + |cached|
  {
    hide HandleSignedVote, HandleSignedProposal;
    if votes != [] {
      DrainsSettleCaches(env, ForwardVote(env, s, votes[0]).0, votes[1..], []);
    }
    if cached != [] {
      DrainsSettleCaches(env, ForwardProposal(env, s, cached[0].signed).0, [], cached[1..]);
    }
  }

  /** Entering height `h` as the maps show it. */
  lemma EmptiedMove(env: Env, s: State, i: Input, s': State, h: u64)
    requires VoteIn(env, i).None? && !i.PeerProposal? && s'.height == h > s.height
    requires s'.voteCache == if h in s.proposalCache then s.voteCache else s.voteCache - {h}
    requires s'.proposalCache == s.proposalCache - {h}
    ensures VotesMove(env, s, i, s') && ProposalsMove(env, s, i, s')
  {
    hide VoteIn, DecodeProposalMessage, Keepable;
  }

  lemma StatusQueues(env: Env, s: State, rs: Status)
    requires Inv(env, s) && HandleRichStatus(env, s, rs).1.Success?
    ensures var s', h := ReceiveStatus(env, s, rs).0, Entered(env, s, rs).height;
            s'.voteCache == if h in s.proposalCache then s.voteCache else s.voteCache - {h}
  {
    hide Inv, ReceiveStatus, VoteEvents, FirstRefused, CachedVotes, Entered, HandleRichStatus;
    StatusDelivers(env, s, rs);
  }

  lemma StatusMoves(env: Env, s: State, i: Input, rs: Status)
    requires Inv(env, s) && VoteIn(env, i).None? && !i.PeerProposal?
    ensures var s' := ReceiveStatus(env, s, rs).0;
            VotesMove(env, s, i, s') && ProposalsMove(env, s, i, s')
  {
    hide Inv, ReceiveStatus, VoteIn, VotesMove, ProposalsMove, Entered, HandleRichStatus;
    if HandleRichStatus(env, s, rs).1.Success? {
      StatusQueues(env, s, rs);
      StatusHeight(env, s, rs);
      StatusEmptiesQueue(env, s, rs);
      EmptiedMove(env, s, i, ReceiveStatus(env, s, rs).0, Entered(env, s, rs).height);
    } else {
      StatusMovesOn(env, s, rs);
      NothingMoves(env, s, i, s);
    }
  }

  lemma NothingMoves(env: Env, s: State, i: Input, s': State)
    requires VoteIn(env, i).None? && !i.PeerProposal?
    requires s'.height == s.height && s'.voteCache == s.voteCache && s'.proposalCache == s.proposalCache
    ensures VotesMove(env, s, i, s') && ProposalsMove(env, s, i, s')
  {
    hide VoteIn, DecodeProposalMessage, Keepable;
  }

  lemma MovesFrom(env: Env, s: State, s1: State, i: Input, s': State)
    requires VoteIn(env, i).None? && !i.PeerProposal?
    requires s1.height == s.height && s1.voteCache == s.voteCache && s1.proposalCache == s.proposalCache
    requires VotesMove(env, s1, i, s') && ProposalsMove(env, s1, i, s')
    ensures VotesMove(env, s, i, s') && ProposalsMove(env, s, i, s')
  {
    hide VoteIn, DecodeProposalMessage, Keepable;
  }

  lemma CommitMoves(env: Env, s: State, i: Input, c: BftCommit, answer: Option<Status>)
    requires Inv(env, s) && VoteIn(env, i).None? && !i.PeerProposal?
    ensures var s' := CoreCommit(env, s, c, answer).0;
            VotesMove(env, s, i, s') && ProposalsMove(env, s, i, s')
  {
    hide Inv, ReceiveStatus, HandleCommit, VoteIn, VotesMove, ProposalsMove;
    HandleCommitSound(env, s, c);
    var s1 := HandleCommit(env, s, c).0;
    NothingMoves(env, s, i, s1);
    if answer.Some? {
      StatusMoves(env, s1, i, answer.value);
      MovesFrom(env, s, s1, i, ReceiveStatus(env, s1, answer.value).0);
    }
  }

  lemma StatusHeight(env: Env, s: State, rs: Status)
    requires HandleRichStatus(env, s, rs).1.Success?
    ensures ReceiveStatus(env, s, rs).0.height == Entered(env, s, rs).height == rs.height + 1 > s.height
  {
    hide SendCacheProposal, SendCacheVote;
    var entered := Entered(env, s, rs);
    CachesSettle(env, entered, entered.height);
    var drained := SendCacheProposal(env, entered, entered.height).0;
    CachesSettle(env, drained, drained.height);
  }

  lemma StatusEmptiesQueue(env: Env, s: State, rs: Status)
    requires HandleRichStatus(env, s, rs).1.Success?
    ensures ReceiveStatus(env, s, rs).0.proposalCache == s.proposalCache - {Entered(env, s, rs).height}
  {
    hide DrainVotes, DrainProposals;
    var entered := Entered(env, s, rs);
    var h := entered.height;
    CachesSettle(env, entered, h);
    var drained := SendCacheProposal(env, entered, h).0;
    if h in entered.proposalCache {
      DrainsSettleCaches(env, entered.(proposalCache := entered.proposalCache - {h}), [], entered.proposalCache[h]);
    } else {
      assert entered.proposalCache - {h} == entered.proposalCache;
    }
    if h in drained.voteCache {
      DrainsSettleCaches(env, drained.(voteCache := drained.voteCache - {h}), drained.voteCache[h], []);
    }
  }

  lemma CachesMove(env: Env, s: State, i: Input)
    requires Inv(env, s)
    ensures VotesMove(env, s, i, Process(env, s, i).0) && ProposalsMove(env, s, i, Process(env, s, i).0)
  {
    hide Inv, ReceiveProposal, ReceiveVote, ReceiveStatus, CoreCommit, HandleVote, HandleProposal, VotesMove,
         ProposalsMove;
    var s' := Process(env, s, i).0;
    match i {
      case PeerProposal(bytes) => ProposalMoves(env, s, bytes); NoVoteMoves(env, s, i, s');
      case PeerVote(bytes) => VoteMoves(env, s, bytes); NoProposalMoves(env, s, i, s');
      case NewStatus(rs) => StatusMoves(env, s, i, rs);
      case Committed(c, answer) => CommitMoves(env, s, i, c, answer);
      case _ => NothingMoves(env, s, i, s');
    }
  }

  lemma NoVoteMoves(env: Env, s: State, i: Input, s': State)
    requires VoteIn(env, i).None? && s'.height == s.height && s'.voteCache == s.voteCache
    ensures VotesMove(env, s, i, s')
  {
    hide VoteIn, Keepable;
  }

  lemma NoProposalMoves(env: Env, s: State, i: Input, s': State)
    requires !i.PeerProposal? && s'.height == s.height && s'.proposalCache == s.proposalCache
    ensures ProposalsMove(env, s, i, s')
  {
    hide DecodeProposalMessage;
  }

  /** A queue at or below the height does not move. */
  lemma BelowStays(env: Env, s: State, i: Input, s': State, k: u64)
    requires VotesMove(env, s, i, s') && ProposalsMove(env, s, i, s') && k <= s.height <= s'.height
    ensures CachedVotes(s', k) == CachedVotes(s, k) && CachedProposals(s', k) == CachedProposals(s, k)
  {
    hide CachedVotes, CachedProposals, VoteIn, DecodeProposalMessage, Env.Authentic;
  }

  /** The votes that wait for a height: those kept for it since it was last entered
      with no proposal waiting, in arrival order. */
  function Waiting(env: Env, inputs: seq<Input>, k: u64): seq<SignedVote> {
    if inputs == [] then []
    else
      var before, last := inputs[..|inputs| - 1], inputs[|inputs| - 1];
      var s := Run(env, before);
      if VoteJoins(env, s, last, k) then Waiting(env, before, k) + [VoteIn(env, last).value]
      else if Run(env, inputs).height == k != s.height && k !in s.proposalCache then []
      else Waiting(env, before, k)
  }

  /** In every run, exactly the votes kept for a height and not yet let out wait for it. */
  lemma {:induction false} WaitingExact(env: Env, inputs: seq<Input>, k: u64)
    requires env.SignsForItself() && OwnVotes(env, inputs)
    ensures CachedVotes(Run(env, inputs), k) == Waiting(env, inputs, k)
  {
    if inputs != [] {
      var before, last := inputs[..|inputs| - 1], inputs[|inputs| - 1];
      WaitingExact(env, before, k);
      RunSound(env, before);
      CachesMove(env, Run(env, before), last);
      assert Run(env, inputs) == Process(env, Run(env, before), last).0;
      hide Run, Process, Inv, VoteJoins, Env.SignsForItself, CachedVotes;
    }
  }

  /** Nothing cached for a height at or below the current one is ever let out again: it
      was left behind when the height was entered, or the height has been skipped. */
  lemma {:induction false} LeftBehind(env: Env, before: seq<Input>, later: seq<Input>, k: u64)
    requires env.SignsForItself() && OwnVotes(env, before + later) && k <= Run(env, before).height
    ensures CachedVotes(Run(env, before + later), k) == CachedVotes(Run(env, before), k)
    ensures CachedProposals(Run(env, before + later), k) == CachedProposals(Run(env, before), k)
  {
    if later == [] {
      assert before + later == before;
    } else {
      hide Run, Process, Inv, Env.SignsForItself, CachedVotes, CachedProposals, Remembers, VotesMove, ProposalsMove;
      var init, last := later[..|later| - 1], later[|later| - 1];
      assert before + later == before + init + [last];
      assert OwnVotes(env, before + init) by {
        assert forall n | 0 <= n < |before + init| :: (before + init)[n] == (before + later)[n];
      }
      LeftBehind(env, before, init, k);
      RunStep(env, before + init, last);
      RunSound(env, before + init);
      CachesMove(env, Run(env, before + init), last);
      FirstAnswerStays(env, before, init);
      FirstAnswerStays(env, before + init, [last]);
      BelowStays(env, Run(env, before + init), last, Run(env, before + later), k);
    }
  }
}
