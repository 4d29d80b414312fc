/** From one node's commit to the next height's proposal at another node. */
module EndToEnd {
  import opened Prelude
  import opened Types
  import opened Env
  import opened Collection
  import opened Authority
  import opened Proofs
  import opened Engine
  import opened Safety
  import opened History
  import opened Delivery
  import opened Commits
  import opened Transport
  import opened Acceptance
  import Codec
  import Framing

  // ---- what a node knows about blocks while it stays at one height

  /** An input keeps the height, every verdict and every block content already
      known, or it moves to a later height and forgets them all. */
  ghost predicate Remembers(s: State, s': State) {
    if s'.height == s.height then
      && (forall h :: h in s.verified ==> h in s'.verified && s'.verified[h] == s.verified[h])
      && (forall h :: h in s.origin ==> h in s'.origin && s'.origin[h] == s.origin[h])
    else
      s'.height > s.height && s'.verified == map[] && s'.origin == map[]
  }

  /** Height, verdicts and block contents are untouched. */
  ghost predicate Settled(s: State, s': State) {
    s'.height == s.height && s'.verified == s.verified && s'.origin == s.origin
  }

  lemma ForwardVoteSettles(env: Env, s: State, sv: SignedVote)
    ensures var s' := ForwardVote(env, s, sv).0;
            Settled(s, s') && s'.proof == s.proof
  {
    hide HandleSignedVote;
  }

  lemma {:induction false} DrainVotesSettles(env: Env, s: State, votes: seq<SignedVote>)
    ensures var s' := DrainVotes(env, s, votes).0;
            Settled(s, s') && s'.proof == s.proof
    decreases |votes|
  {
    if votes != [] {
      hide ForwardVote;
      var (s1, r) := ForwardVote(env, s, votes[0]);
      ForwardVoteSettles(env, s, votes[0]);
      if r.Success? { DrainVotesSettles(env, s1, votes[1..]); }
    }
  }

  lemma ForwardProposalSettles(env: Env, s: State, sp: SignedProposal)
    ensures Settled(s, ForwardProposal(env, s, sp).0)
  {
    hide HandleSignedProposal;
  }

  lemma {:induction false} DrainProposalsSettles(env: Env, s: State, cached: seq<Cached>)
    ensures Settled(s, DrainProposals(env, s, cached).0)
    decreases |cached|
  {
    if cached != [] {
      hide ForwardProposal;
      var (s1, r) := ForwardProposal(env, s, cached[0].signed);
      ForwardProposalSettles(env, s, cached[0].signed);
      if r.Success? { DrainProposalsSettles(env, s1, cached[1..]); }
    }
  }

  lemma CachesSettle(env: Env, s: State, height: u64)
    ensures Settled(s, SendCacheProposal(env, s, height).0)
    ensures Settled(s, SendCacheVote(env, s, height).0) && SendCacheVote(env, s, height).0.proof == s.proof
  {
    hide DrainVotes, DrainProposals;
    if height in s.proposalCache {
      DrainProposalsSettles(env, s.(proposalCache := s.proposalCache - {height}), s.proposalCache[height]);
    }
    if height in s.voteCache { DrainVotesSettles(env, s.(voteCache := s.voteCache - {height}), s.voteCache[height]); }
  }

  lemma StatusRemembers(env: Env, s: State, rs: Status)
    ensures Remembers(s, ReceiveStatus(env, s, rs).0)
  {
    hide SendCacheProposal, SendCacheVote;
    if HandleRichStatus(env, s, rs).1.Success? {
      var entered := Entered(env, s, rs);
      CachesSettle(env, entered, entered.height);
      CachesSettle(env, SendCacheProposal(env, entered, entered.height).0, entered.height);
    }
  }

  lemma ProposalRemembers(env: Env, s: State, bytes: Bytes)
    ensures Remembers(s, ReceiveProposal(env, s, bytes).0)
  {
    hide ForwardProposal, DecodeProposalMessage;
    var decoded := DecodeProposalMessage(env, bytes);
    if decoded.Success? {
      var (sp, block, hash) := decoded.value;
      ForwardProposalSettles(env, s.(origin := OrInsert(s.origin, hash, block)), sp);
    }
  }

  lemma VoteRemembers(env: Env, s: State, bytes: Bytes)
    ensures Remembers(s, ReceiveVote(env, s, bytes).0)
  {
    hide HandleSignedVote;
  }

  lemma ProcessRemembers(env: Env, s: State, i: Input)
    ensures Remembers(s, Process(env, s, i).0)
  {
    hide ReceiveProposal, ReceiveVote, ReceiveStatus, HandleCommit, HandleVote, HandleProposal;
    match i {
      case PeerProposal(bytes) => ProposalRemembers(env, s, bytes);
      case PeerVote(bytes) => VoteRemembers(env, s, bytes);
      case NewStatus(rs) => StatusRemembers(env, s, rs);
      case Committed(c, answer) => if answer.Some? { StatusRemembers(env, HandleCommit(env, s, c).0, answer.value); }
      case _ =>
    }
  }

  lemma RemembersChain(a: State, b: State, c: State)
    requires (a.height == b.height ==> Remembers(a, b)) && a.height <= b.height && Remembers(b, c)
    ensures (a.height == c.height ==> Remembers(a, c)) && a.height <= c.height
  {
  }

  /** While the height of a run stays the same, the first verdict on a block and
      the first content for a hash stay, whatever arrives afterwards. */
  lemma {:induction false} FirstAnswerStays(env: Env, before: seq<Input>, later: seq<Input>)
    ensures Run(env, before).height <= Run(env, before + later).height
    ensures Run(env, before).height == Run(env, before + later).height ==>
              Remembers(Run(env, before), Run(env, before + later))
  {
    hide Process, Remembers;
    if later == [] {
      assert before + later == before;
      StaysItself(Run(env, before));
    } else {
      var all, init := before + later, later[..|later| - 1];
      assert all[..|all| - 1] == before + init;
      assert all[|all| - 1] == later[|later| - 1];
      FirstAnswerStays(env, before, init);
      ProcessRemembers(env, Run(env, before + init), later[|later| - 1]);
      RemembersChain(Run(env, before), Run(env, before + init), Run(env, all));
    }
  }

  lemma StaysItself(s: State)
    ensures Remembers(s, s)
  {
  }

  // ---- the next height's proposal

  /** A frame for the present height whose proposal names the frame's own hash is
      handed on exactly when proposer, lock votes and previous proof are accepted. */
  lemma FrameTaken(env: Env, s: State, bytes: Bytes, sp: SignedProposal, block: Content)
    requires Inv(env, s) && s.height == sp.proposal.height > 0 && env.AuthenticProposal(sp)
    requires DecodeProposalMessage(env, bytes) == Success((sp, block, sp.proposal.hash))
    ensures var (after, r) := ReceiveProposal(env, s, bytes);
            var p := sp.proposal;
            && (r.Success? <==>
                  && env.logs(LogSignedProposal(sp))
                  && ProposerCheck(s.authority, p.height, p.round, p.proposer).Success?
                  && LockAccepted(env, s.authority, p)
                  && ProofVerified(env, p.proof, p.height - 1, s.authority.ListFor(p.height - 1)))
            && (r.Success? ==>
                  s.trace + [Event(ToProposal(ToBftProposal(p, p.hash)), s.height, s.authority, ByProposal(sp))]
                  <= after.trace)
  {
    hide HandleSignedProposal, DecodeProposalMessage, StoreSound, ProposalsValid, VoteCacheSound, ProposalCacheSound,
         EventSound, LockAccepted, ProposerCheck, ProofVerified, KnownVerdict, ProofKept, Env.AuthenticProposal;
    ProposalAcceptedIff(env, s.(origin := OrInsert(s.origin, sp.proposal.hash, block)), sp);
  }

  /** A peer at the height of a proposal of this node hands it on to its core as it
      was if and only if it accepts proposer, lock votes and previous proof; the
      block comes with the message. */
  lemma PeerTakesProposal(env: Env, peer: Env, s: State, there: State, p: BftProposal)
    requires Inv(env, s) && Inv(peer, there) && there.height == p.height > 0
    requires Understands(peer, env) && SameCrypto(env, peer) && env.SignsForItself() && p.proposer == env.address
    requires HandleProposal(env, s, p).1.Success? && |HandleProposal(env, s, p).1.value| <= MAX_LEN
    requires p.lockRound.None? ==> p.lockVotes == []
    requires DecodeProposalMessage(peer, HandleProposal(env, s, p).1.value).Success?
    ensures var sp := BuildSignedProposal(env, s, p).1.value;
            var (after, r) := ReceiveProposal(peer, there, HandleProposal(env, s, p).1.value);
            && (r.Success? <==>
                  && peer.logs(LogSignedProposal(sp))
                  && ProposerCheck(there.authority, p.height, p.round, p.proposer).Success?
                  && LockAccepted(peer, there.authority, sp.proposal)
                  && ProofVerified(peer, sp.proposal.proof, p.height - 1, there.authority.ListFor(p.height - 1)))
            && (r.Success? ==>
                  there.trace + [Event(ToProposal(p), p.height, there.authority, ByProposal(sp))] <= after.trace)
  {
    ProposalSurvives(env, peer, s, p);
    SameAuthor(env, peer, BuildSignedProposal(env, s, p).1.value);
    hide HandleProposal, BuildSignedProposal, DecodeProposalMessage, ReceiveProposal, Inv, LockAccepted, ProposerCheck,
         ProofVerified, Env.AuthenticProposal, Understands, SameCrypto, Env.SignsForItself, Framing.DecodeBlock,
         Framing.Extract, Codec.DecodeSignedProposal;
    var (sp, block, _) := DecodeProposalMessage(peer, HandleProposal(env, s, p).1.value).value;
    FrameTaken(peer, there, HandleProposal(env, s, p).1.value, sp, block);
  }

  lemma SameAuthor(env: Env, peer: Env, sp: SignedProposal)
    requires SameCrypto(env, peer)
    ensures env.AuthenticProposal(sp) == peer.AuthenticProposal(sp)
  {
  }

  /** The commit's proof is the one kept when the status of its height arrives. */
  lemma CommitKept(env: Env, s: State, c: BftCommit, rs: Status)
    requires Inv(env, s) && HandleCommit(env, s, c).1.Success? && rs.height == c.height
    requires HandleRichStatus(env, HandleCommit(env, s, c).0, rs).1.Success?
    ensures var s' := CoreCommit(env, s, c, Some(rs)).0;
            s'.proof == Some(HandleCommit(env, s, c).1.value.proof) && s'.height == c.height + 1
  {
    hide HandleCommit, SendCacheProposal, SendCacheVote, Inv;
    HandleCommitSound(env, s, c);
    CommitProof(env, s, c);
    var s1 := HandleCommit(env, s, c).0;
    var entered := Entered(env, s1, rs);
    CachesSettle(env, entered, entered.height);
    CachesSettle(env, SendCacheProposal(env, entered, entered.height).0, entered.height);
    CachedKeepProof(env, s1, rs);
  }

  lemma CommitProof(env: Env, s: State, c: BftCommit)
    requires HandleCommit(env, s, c).1.Success?
    ensures HandleCommit(env, s, c).0.proof == Some(HandleCommit(env, s, c).1.value.proof)
  {
    hide GenerateProof;
  }

  /** The proposals cached for the height just entered leave the kept proof alone. */
  lemma CachedKeepProof(env: Env, s: State, rs: Status)
    requires Inv(env, s) && HandleRichStatus(env, s, rs).1.Success?
    ensures var entered := Entered(env, s, rs);
            SendCacheProposal(env, entered, entered.height).0.proof == s.proof
  {
    hide StoreSound, ProposalsValid, VoteCacheSound, EventSound, DrainProposals;
    var entered := Entered(env, s, rs);
    var h := entered.height;
    if h in entered.proposalCache {
      var cached := entered.proposalCache[h];
      assert cached[0] in cached;
      CachedProposalRefused(env, entered.(proposalCache := entered.proposalCache - {h}), cached);
    }
  }

  // ---- a proof once kept stays

  ghost predicate KeepsPrevious(s: State) {
    s.proof.Some? && s.proof.value.height + 1 == s.height
  }

  lemma ForwardKeepsProof(env: Env, s: State, sp: SignedProposal)
    requires KeepsPrevious(s)
    ensures ForwardProposal(env, s, sp).0.proof == s.proof
  {
    hide CheckLockVotes, ProposerCheck, ProposalsAdd, ProofVerified;
  }

  lemma ReceiveKeepsProof(env: Env, s: State, bytes: Bytes)
    requires KeepsPrevious(s)
    ensures ReceiveProposal(env, s, bytes).0.proof == s.proof
  {
    hide ForwardProposal, DecodeProposalMessage;
    var decoded := DecodeProposalMessage(env, bytes);
    if decoded.Success? {
      ForwardKeepsProof(env, s.(origin := OrInsert(s.origin, decoded.value.2, decoded.value.1)), decoded.value.0);
    }
  }

  lemma StatusMovesOn(env: Env, s: State, rs: Status)
    ensures var s' := ReceiveStatus(env, s, rs).0;
            if HandleRichStatus(env, s, rs).1.Success? then s'.height > s.height else s' == s
  {
    hide SendCacheProposal, SendCacheVote;
    if HandleRichStatus(env, s, rs).1.Success? {
      var entered := Entered(env, s, rs);
      CachesSettle(env, entered, entered.height);
      CachesSettle(env, SendCacheProposal(env, entered, entered.height).0, entered.height);
    }
  }

  lemma ProcessKeepsProof(env: Env, s: State, i: Input)
    requires KeepsPrevious(s) && !i.Committed? && Process(env, s, i).0.height == s.height
    ensures Process(env, s, i).0.proof == s.proof
  {
    hide ReceiveProposal, ReceiveStatus, HandleSignedVote, HandleVote, HandleProposal;
    match i {
      case PeerProposal(bytes) => ReceiveKeepsProof(env, s, bytes);
      case PeerVote(bytes) => hide KeepsPrevious;
      case NewStatus(rs) => StatusMovesOn(env, s, rs);
      case _ =>
    }
  }

  lemma RunStep(env: Env, before: seq<Input>, i: Input)
    ensures Run(env, before + [i]) == Process(env, Run(env, before), i).0
  {
    assert (before + [i])[..|before|] == before;
  }

  /** The previous height's proof, once kept, stays for as long as a run stays at
      the height and commits nothing, whatever proofs arrive meanwhile. */
  lemma {:induction false} ProofStays(env: Env, before: seq<Input>, later: seq<Input>)
    requires KeepsPrevious(Run(env, before)) && forall i | i in later :: !i.Committed?
    requires Run(env, before + later).height == Run(env, before).height
    ensures Run(env, before + later).proof == Run(env, before).proof
  {
    if later == [] {
      assert before + later == before;
    } else {
      hide Run, Process, Remembers;
      var init, last := later[..|later| - 1], later[|later| - 1];
      assert before + later == before + init + [last];
      RunStep(env, before + init, last);
      FirstAnswerStays(env, before, init);
      FirstAnswerStays(env, before + init, [last]);
      ProofStays(env, before, init);
      ProcessKeepsProof(env, Run(env, before + init), last);
    }
  }

  /** A run up to a commit that the application answers with the status of its
      height, and on from there without another commit. */
  function Onward(inputs: seq<Input>, c: BftCommit, rs: Status, later: seq<Input>): seq<Input> {
    inputs + [Committed(c, Some(rs))] + later
  }

  /** The commit succeeds on lock votes that name its block, its status is accepted,
      and the run then stays at the next height. */
  ghost predicate CommitsThenStays(env: Env, inputs: seq<Input>, c: BftCommit, rs: Status, later: seq<Input>) {
    var s := Run(env, inputs);
    && HandleCommit(env, s, c).1.Success? && (forall v | v in c.lockVotes :: v.proposal == c.proposal)
    && rs.height == c.height && HandleRichStatus(env, HandleCommit(env, s, c).0, rs).1.Success?
    && (forall i | i in later :: !i.Committed?)
    && Run(env, Onward(inputs, c, rs, later)).height == c.height + 1
  }

  /** The commit's proof is still the kept one. */
  lemma CommitProofKept(env: Env, inputs: seq<Input>, c: BftCommit, rs: Status, later: seq<Input>)
    requires env.SignsForItself() && OwnVotes(env, inputs) && CommitsThenStays(env, inputs, c, rs, later)
    ensures Run(env, Onward(inputs, c, rs, later)).proof == Some(HandleCommit(env, Run(env, inputs), c).1.value.proof)
    ensures HandleCommit(env, Run(env, inputs), c).1.value.proof.height == c.height
  {
    hide Run, HandleCommit, HandleRichStatus, CoreCommit, Inv;
    var upTo := inputs + [Committed(c, Some(rs))];
    RunStep(env, inputs, Committed(c, Some(rs)));
    RunSound(env, inputs);
    CommitKept(env, Run(env, inputs), c, rs);
    CommitProofSigned(env, Run(env, inputs), c);
    ProofStays(env, upTo, later);
  }

  /** One node commits a height and, once it has a block, proposes at the next;
      another node, whose statuses were consecutive, hands that proposal on to its
      core if and only if it can decode the block and log the proposal, the proposer
      is the rightful one of the list in force there, the lock votes pass, and the
      lock votes of the commit come from a quorum of the list in force one height
      below. */
  lemma NextProposalTaken(env: Env, inputs: seq<Input>, c: BftCommit, rs: Status, later: seq<Input>, p: BftProposal,
                          peer: Env, peerInputs: seq<Input>)
    requires env.SignsForItself() && OwnVotes(env, Onward(inputs, c, rs, later))
    requires peer.SignsForItself() && OwnVotes(peer, peerInputs)
    requires Understands(peer, env) && SameCrypto(env, peer)
    requires CommitsThenStays(env, inputs, c, rs, later)
    requires Proposes(env, Run(env, Onward(inputs, c, rs, later)), p)
    requires ConsecutiveAt(peer, peerInputs, c.height + 1)
    ensures var s, there := Run(env, Onward(inputs, c, rs, later)), Run(peer, peerInputs);
            var (after, r) := ReceiveProposal(peer, there, HandleProposal(env, s, p).1.value);
            var hs := Statuses(there.trace);
            && p.height == c.height + 1 && BuildSignedProposal(env, s, p).1.Success?
            && p.content in s.origin && env.encode(s.origin[p.content]).Some?
            && var sp := BuildSignedProposal(env, s, p).1.value;
            && (r.Success? <==>
                  && peer.decode(env.encode(s.origin[p.content]).value).Some?
                  && peer.logs(LogSignedProposal(sp))
                  && RightfulProposer(InForce(hs, p.height), p.height, p.round, p.proposer)
                  && LockAccepted(peer, there.authority, sp.proposal)
                  && (c.height == 0 || Quorum(BftVoters(c.lockVotes), InForce(hs, c.height))))
            && (r.Success? ==>
                  there.trace + [Event(ToProposal(p), p.height, there.authority, ByProposal(sp))] <= after.trace)
  {
    hide Run, HandleCommit, HandleRichStatus, HandleProposal, BuildSignedProposal, ReceiveProposal,
         DecodeProposalMessage, Statuses, InForce, Consecutive, Quorum, ProofVerified, Inv, LockAccepted;
    var all := Onward(inputs, c, rs, later);
    assert OwnVotes(env, inputs) by { assert forall k | 0 <= k < |inputs| :: all[k] == inputs[k]; }
    var s, there := Run(env, all), Run(peer, peerInputs);
    var hs, proof := Statuses(there.trace), HandleCommit(env, Run(env, inputs), c).1.value.proof;
    RunSound(env, all);
    RunSound(peer, peerInputs);
    CommitProofKept(env, inputs, c, rs, later);
    ProposalOf(env, s, p);
    RunProposalSurvives(env, peer, all, p);
    DecodeNeeded(peer, there, HandleProposal(env, s, p).1.value);
    if DecodeProposalMessage(peer, HandleProposal(env, s, p).1.value).Success? {
      PeerTakesProposal(env, peer, s, there, p);
    }
    RunTracked(peer, peerInputs);
    ListInForce(hs, p.height);
    ListInForce(hs, c.height);
    RunCommitAccepted(env, inputs, c, there.authority.ListFor(c.height));
    SameCryptoVerifies(env, peer, proof, c.height, there.authority.ListFor(c.height));
    FirstNeedsNoProof(peer, BuildSignedProposal(env, s, p).1.value.proposal.proof, there.authority.ListFor(c.height));
  }

  lemma DecodeNeeded(env: Env, s: State, bytes: Bytes)
    ensures ReceiveProposal(env, s, bytes).1.Success? ==> DecodeProposalMessage(env, bytes).Success?
  {
    hide DecodeProposalMessage, ForwardProposal;
  }

  lemma FirstNeedsNoProof(env: Env, proof: Proof, authority: seq<Node>)
    ensures ProofVerified(env, proof, 0, authority)
  {
  }

  /** This node's core proposes `p`, in a message that fits a machine. */
  ghost predicate Proposes(env: Env, s: State, p: BftProposal) {
    && p.proposer == env.address && (p.lockRound.None? ==> p.lockVotes == [])
    && HandleProposal(env, s, p).1.Success? && |HandleProposal(env, s, p).1.value| <= MAX_LEN
  }

  ghost predicate ConsecutiveAt(env: Env, inputs: seq<Input>, height: nat) {
    Consecutive(Statuses(Run(env, inputs).trace)) && Run(env, inputs).height == height
  }

  /** What is built for a proposal. */
  lemma ProposalOf(env: Env, s: State, p: BftProposal)
    requires HandleProposal(env, s, p).1.Success?
    ensures p.height == s.height && BuildSignedProposal(env, s, p).1.Success?
    ensures s.height > 1 ==> s.proof == Some(BuildSignedProposal(env, s, p).1.value.proposal.proof)
  {
    hide FindLockVotes, EncodeProposalMessage;
  }
}
