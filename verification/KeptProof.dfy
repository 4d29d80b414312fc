/** Which proof a node keeps, and when its own proposals carry the one that peers ask
    for. */
module KeptProof {
  import opened Prelude
  import opened Types
  import opened Env
  import opened Collection
  import opened Authority
  import opened Proofs
  import opened Engine
  import opened Safety
  import opened History
  import opened Commits
  import opened Transport
  import opened Acceptance
  import opened EndToEnd

  /** The proof that a message makes the node keep: that of a commit, or, where the
      previous height's is not kept yet, that of an accepted proposal of the height. */
  ghost function ProofSet(env: Env, s: State, i: Input): Option<Proof> {
    match i
    case Committed(c, _) =>
      var commit := HandleCommit(env, s, c).1;
      if commit.Success? then Some(commit.value.proof) else None
    case PeerProposal(bytes) =>
      var decoded := DecodeProposalMessage(env, bytes);
      if decoded.Failure? then None
      else
        var (sp, block, hash) := decoded.value;
        var known := s.(origin := OrInsert(s.origin, hash, block));
        if sp.proposal.height == s.height && !KeepsPrevious(s) && ProposalDeliverable(env, known, sp)
        then Some(sp.proposal.proof) else None
    case _ => None
  }

  lemma ForwardSets(env: Env, s: State, sp: SignedProposal)
    requires Inv(env, s)
    ensures ForwardProposal(env, s, sp).0.proof ==
            if sp.proposal.height == s.height && !KeepsPrevious(s) && ProposalDeliverable(env, s, sp)
            then Some(sp.proposal.proof) else s.proof
  {
    if KeepsPrevious(s) {
      ForwardKeepsProof(env, s, sp);
    } else {
      ForwardHandles(env, s, sp);
      hide Inv, HandleSignedProposal, ForwardProposal, ProposalDeliverable, KnownVerdict;
      ProposalAcceptedIff(env, s, sp);
      RefusedKeepsProof(env, s, sp);
    }
  }

  /** A proposal that is refused, or for the height before, leaves the proof alone. */
  lemma RefusedKeepsProof(env: Env, s: State, sp: SignedProposal)
    ensures var (s', r) := HandleSignedProposal(env, s, sp);
            r.Failure? || sp.proposal.height != s.height ==> s'.proof == s.proof
  {
    hide CheckLockVotes, ProposerCheck, ProposalsAdd, ProofVerified;
  }

  lemma ReceiveSets(env: Env, s: State, bytes: Bytes)
    requires Inv(env, s)
    ensures var brought := ProofSet(env, s, PeerProposal(bytes));
            ReceiveProposal(env, s, bytes).0.proof == if brought.Some? then brought else s.proof
  {
    hide ForwardProposal, DecodeProposalMessage, ProposalDeliverable, StoreSound, VoteCacheSound, ProposalCacheSound;
    var decoded := DecodeProposalMessage(env, bytes);
    if decoded.Success? {
      ForwardSets(env, s.(origin := OrInsert(s.origin, decoded.value.2, decoded.value.1)), decoded.value.0);
    }
  }

  lemma StatusKeepsProof(env: Env, s: State, rs: Status)
    requires Inv(env, s)
    ensures ReceiveStatus(env, s, rs).0.proof == s.proof
  {
    hide Inv, SendCacheProposal, SendCacheVote;
    if HandleRichStatus(env, s, rs).1.Success? {
      var entered := Entered(env, s, rs);
      CachedKeepProof(env, s, rs);
      var drained := SendCacheProposal(env, entered, entered.height).0;
      CachesSettle(env, drained, drained.height);
    }
  }

  lemma ProofMoves(env: Env, s: State, i: Input)
    requires Inv(env, s)
    ensures var brought := ProofSet(env, s, i);
            Process(env, s, i).0.proof == if brought.Some? then brought else s.proof
  {
    hide Inv, ReceiveProposal, ReceiveStatus, HandleCommit, HandleVote, HandleProposal, HandleSignedVote,
         ProposalDeliverable, DecodeProposalMessage;
    match i {
      case PeerProposal(bytes) => ReceiveSets(env, s, bytes);
      case NewStatus(rs) => StatusKeepsProof(env, s, rs);
      case Committed(c, answer) =>
        HandleCommitSound(env, s, c);
        CommitSets(env, s, c);
        if answer.Some? { StatusKeepsProof(env, HandleCommit(env, s, c).0, answer.value); }
      case _ =>
    }
  }

  lemma CommitSets(env: Env, s: State, c: BftCommit)
    ensures var (s', r) := HandleCommit(env, s, c);
            s'.proof == if r.Success? then Some(r.value.proof) else s.proof
  {
    hide GenerateProof;
  }

  /** The proof that the last message to set one has set. */
  ghost function LastProof(env: Env, inputs: seq<Input>): Option<Proof> {
    if inputs == [] then None
    else
      var before, last := inputs[..|inputs| - 1], inputs[|inputs| - 1];
      var brought := ProofSet(env, Run(env, before), last);
      if brought.Some? then brought else LastProof(env, before)
  }

  /** In every run, commits and accepted proposals are all that sets the kept proof:
      no status does, and nothing that comes out of a cache. */
  lemma {:induction false} RunKeepsLast(env: Env, inputs: seq<Input>)
    requires env.SignsForItself() && OwnVotes(env, inputs)
    ensures Run(env, inputs).proof == LastProof(env, inputs)
  {
    if inputs != [] {
      var before, last := inputs[..|inputs| - 1], inputs[|inputs| - 1];
      RunKeepsLast(env, before);
      RunSound(env, before);
      ProofMoves(env, Run(env, before), last);
      assert Run(env, inputs) == Process(env, Run(env, before), last).0;
      hide Run, Process, Inv, ProofSet, Env.SignsForItself;
    }
  }

  /** A node's own proposal carries a proof of the previous height exactly at height 1,
      or where the node keeps that proof. */
  lemma CarriesPreviousIff(env: Env, s: State, p: BftProposal)
    requires HandleProposal(env, s, p).1.Success? && s.height > 0
    ensures BuildSignedProposal(env, s, p).1.Success?
    ensures BuildSignedProposal(env, s, p).1.value.proposal.proof.height + 1 == p.height
            <==> s.height == 1 || KeepsPrevious(s)
  {
    hide FindLockVotes, EncodeProposalMessage;
  }

  /** Where it is not kept, every peer at the proposal's height refuses the proposal. */
  lemma StaleProposalRefused(env: Env, peer: Env, s: State, there: State, p: BftProposal)
    requires Inv(env, s) && Inv(peer, there) && there.height == p.height > 1 && !KeepsPrevious(s)
    requires Understands(peer, env) && SameCrypto(env, peer) && env.SignsForItself() && Proposes(env, s, p)
    ensures ReceiveProposal(peer, there, HandleProposal(env, s, p).1.value).1.Failure?
  {
    hide Inv, ReceiveProposal, DecodeProposalMessage, LockAccepted, ProposerCheck, ProofVerified, Understands,
         SameCrypto, BuildSignedProposal, HandleProposal;
    ProposalOf(env, s, p);
    CarriesPreviousIff(env, s, p);
    var proof := BuildSignedProposal(env, s, p).1.value.proposal.proof;
    VerifiedHeight(peer, proof, p.height - 1, there.authority.ListFor(p.height - 1));
    DecodeNeeded(peer, there, HandleProposal(env, s, p).1.value);
    if DecodeProposalMessage(peer, HandleProposal(env, s, p).1.value).Success? {
      PeerTakesProposal(env, peer, s, there, p);
    }
  }
}
