/** A proposal of the core on its way to a peer. */
module Transport {
  import opened Prelude
  import opened Types
  import opened Env
  import opened Collection
  import opened Engine
  import opened Safety
  import Codec
  import Framing

  /** The longest byte string a machine can hold. */
  const MAX_LEN := 0x7FFF_FFFF_FFFF_FFFF

  /** The peer decodes what this node's RLP encoder writes. */
  ghost predicate Understands(peer: Env, env: Env) {
    forall i :: peer.unrlp(env.rlp(i)) == Some(i)
  }

  /** Looked-up signed votes convert back to the keys they were asked for by. */
  lemma {:induction false} LookedUpConvertBack(env: Env, h: u64, r: u64, t: VoteType, stored: VoteSet,
                                               votes: seq<BftVote>)
    requires forall b | b in stored :: EntrySound(env, h, r, t, b, stored[b])
    requires LookUpVotes(stored, votes).Success?
    ensures ToBftVotes(LookUpVotes(stored, votes).value) == votes
  {
    if votes != [] {
      LookUpStep(stored, votes);
      hide LookUpVotes, Env.Authentic;
      LookedUpConvertBack(env, h, r, t, stored, votes[1..]);
      var rest := LookUpVotes(stored, votes[1..]).value;
      assert ToBftVotes([stored[votes[0]]] + rest) == [ToBftVote(stored[votes[0]].vote)] + ToBftVotes(rest);
      assert votes == [votes[0]] + votes[1..];
    }
  }

  lemma LookUpStep(stored: VoteSet, votes: seq<BftVote>)
    requires votes != [] && LookUpVotes(stored, votes).Success?
    ensures votes[0] in stored && LookUpVotes(stored, votes[1..]).Success?
    ensures LookUpVotes(stored, votes).value == [stored[votes[0]]] + LookUpVotes(stored, votes[1..]).value
  {
  }

  /** What is built for `p` converts back to `p`. */
  lemma BuiltConvertsBack(env: Env, s: State, p: BftProposal)
    requires StoreSound(env, s.votes) && BuildSignedProposal(env, s, p).1.Success?
    requires p.lockRound.None? ==> p.lockVotes == []
    ensures var sp := BuildSignedProposal(env, s, p).1.value;
            && ToBftProposal(sp.proposal, sp.proposal.hash) == p
            && env.sign(env.ProposalDigest(sp.proposal)) == Some(sp.signature)
            && (s.height > 1 ==> s.proof == Some(sp.proposal.proof))
            && BuildSignedProposal(env, s, p).0.origin == s.origin
  {
    hide StoreGet, LookUpVotes;
    if p.lockRound.Some? {
      GetReads(s.votes, p.height, p.round, Prevote);
      var stored := Slot(s.votes, p.height, p.round, Prevote);
      assert StoreGet(s.votes, p.height, p.round, Prevote).1 == Some(stored);
      LookedUpConvertBack(env, p.height, p.round, Prevote, stored, p.lockVotes);
    }
  }

  /** The bytes that `handle_proposal` returns for `p` decode at a peer to a signed
      proposal that is `p` again, with the same content bytes and hash; the
      signature recovers to the proposer when that is this node. */
  lemma ProposalSurvives(env: Env, peer: Env, s: State, p: BftProposal)
    requires StoreSound(env, s.votes) && Understands(peer, env)
    requires HandleProposal(env, s, p).1.Success? && |HandleProposal(env, s, p).1.value| <= MAX_LEN
    requires p.lockRound.None? ==> p.lockVotes == []
    ensures var bytes := HandleProposal(env, s, p).1.value;
            && Framing.Extract(bytes).Success?
            && var (spBytes, blockBytes) := Framing.Extract(bytes).value;
            && peer.unrlp(spBytes).Some?
            && Codec.DecodeSignedProposal(peer.unrlp(spBytes).value).Success?
            && var sp := Codec.DecodeSignedProposal(peer.unrlp(spBytes).value).value;
            && BuildSignedProposal(env, s, p).1 == Success(sp)
            && ToBftProposal(sp.proposal, sp.proposal.hash) == p
            && p.content in s.origin && env.encode(s.origin[p.content]).Some?
            && var content := env.encode(s.origin[p.content]).value;
            && Framing.DecodeBlock(blockBytes) == Success((p.height, content, p.content))
            && DecodeProposalMessage(peer, bytes) ==
                 (if peer.decode(content).None? then Failure(DecodeErr)
                  else Success((sp, peer.decode(content).value, p.content)))
            && (env.SignsForItself() && p.proposer == env.address ==> env.AuthenticProposal(sp))
  {
    hide BuildSignedProposal, Codec.DecodeSignedProposal, Codec.SignedProposalItem, Framing.Extract, Framing.Combined,
         Framing.DecodeBlock, Framing.BlockFrame, ProposalsAdd;
    BuiltConvertsBack(env, s, p);
    var sp := BuildSignedProposal(env, s, p).1.value;
    var content := env.encode(s.origin[p.content]).value;
    var spBytes, blockBytes := env.rlp(Codec.SignedProposalItem(sp)), Framing.BlockFrame(s.height, content, p.content);
    FrameLengths(spBytes, s.height, content, p.content);
    Framing.ExtractInvertsCombine(spBytes, blockBytes);
    Framing.DecodeInvertsEncodeBlock(s.height, content, p.content);
    Codec.SignedProposalRoundTrip(sp);
    assert peer.unrlp(spBytes) == Some(Codec.SignedProposalItem(sp));
  }

  lemma FrameLengths(spBytes: Bytes, height: u64, content: Bytes, hash: Bytes)
    ensures |Framing.Combined(spBytes, Framing.BlockFrame(height, content, hash))| >= |spBytes| + |hash|
  {
  }

  /** In every state that a run reaches: a peer decodes the message exactly when it
      decodes the block's content, and then to the proposal built here, which is the
      core's own again and signed by this node, with that content under its hash. */
  lemma RunProposalSurvives(env: Env, peer: Env, inputs: seq<Input>, p: BftProposal)
    requires env.SignsForItself() && OwnVotes(env, inputs) && Understands(peer, env)
    requires var r := HandleProposal(env, Run(env, inputs), p).1; r.Success? && |r.value| <= MAX_LEN
    requires p.lockRound.None? ==> p.lockVotes == []
    ensures var s := Run(env, inputs);
            && p.content in s.origin && env.encode(s.origin[p.content]).Some?
            && BuildSignedProposal(env, s, p).1.Success?
            && var content, sp := env.encode(s.origin[p.content]).value, BuildSignedProposal(env, s, p).1.value;
            && ToBftProposal(sp.proposal, sp.proposal.hash) == p
            && (p.proposer == env.address ==> env.AuthenticProposal(sp))
            && DecodeProposalMessage(peer, HandleProposal(env, s, p).1.value) ==
                 (if peer.decode(content).None? then Failure(DecodeErr)
                  else Success((sp, peer.decode(content).value, p.content)))
            && Framing.Extract(HandleProposal(env, s, p).1.value).Success?
            && Framing.DecodeBlock(Framing.Extract(HandleProposal(env, s, p).1.value).value.1) ==
                 Success((p.height, content, p.content))
  {
    RunSound(env, inputs);
    var s := Run(env, inputs);
    hide HandleProposal, DecodeProposalMessage, Run, BuildSignedProposal, Framing.DecodeBlock;
    ProposalSurvives(env, peer, s, p);
  }
}
