/** The driver as the program runs it: one object whose handlers update its
    fields step by step, each proved to do what `Engine` says. */
module Consensus {
  import opened Prelude
  import opened Types
  import opened Env
  import opened LruCache
  import opened Collection
  import opened Authority
  import opened Proofs
  import opened Engine
  import Codec
  import Framing

  class Consensus {
    const env: Env
    const authority: AuthorityManage
    const votes: VoteCollector
    const proposals: ProposalCollector
    var height: u64
    var proof: Option<Proof>
    var verifiedBlock: map<Hash, bool>
    var blockOriginCache: map<Hash, Content>
    var proposalCache: map<u64, seq<Cached>>
    var voteCache: map<u64, seq<SignedVote>>
    var consensusPower: bool
    ghost var trace: seq<Event>

    ghost function View(): State
      reads this, authority, votes, proposals
    {
      State(height, authority.View(), votes.votes, proposals.proposals, proof, verifiedBlock, blockOriginCache,
            proposalCache, voteCache, consensusPower, trace)
    }

    constructor (env: Env)
      ensures this.env == env && View() == Initial()
      ensures fresh(authority) && fresh(votes) && fresh(proposals)
    {
      this.env := env;
      authority := new AuthorityManage();
      votes := new VoteCollector();
      proposals := new ProposalCollector();
      height, proof, verifiedBlock, blockOriginCache := 0, None, map[], map[];
      proposalCache, voteCache, consensusPower := map[], map[], false;
      trace := [];
    }

    /** Hand an input to the core. */
    ghost method SendBftMsg(input: CoreInput, wire: Wire)
      modifies `trace
      ensures View() == Send(old(View()), input, wire)
    {
      trace := trace + [Event(input, height, authority.View(), wire)];
    }

    // ---- votes from peers

    method CheckVoteSender(height: u64, sender: Address) returns (r: Result<()>)
      ensures r == if sender in View().authority.AddressesFor(height) then Success(()) else Failure(InvalidVoter)
    {
      var members := authority.addressSet;
      if height == authority.authorityHOld { members := authority.addressSetOld; }
      if sender !in members { return Failure(InvalidVoter); }
      return Success(());
    }

    method HandleSignedVote(msg: SignedVote) returns (r: Result<BftVote>)
      modifies `voteCache, votes
      ensures (View(), r) == Engine.HandleSignedVote(env, old(View()), msg)
    {
      hide StoreAdd;
      var vote := msg.vote;
      var address := env.recover(msg.signature, env.VoteDigest(vote));
      if address.None? { return Failure(SupportErr); }
      if height == 0 { return Failure(Panicked); }
      if vote.height < height - 1 { return Failure(ObsoleteMsg); }
      if vote.voter != address.value { return Failure(SignatureErr); }
      var bftVote := ToBftVote(vote);
      if vote.height >= height {
        if vote.height - height < CACHE_NUMBER && !env.logs(LogSignedVote(msg)) { return Failure(SerJsonErr); }
        if vote.height > height {
          voteCache := Push(voteCache, vote.height, msg);
          return Failure(FutureMsg);
        }
      }
      var _ := votes.Add(vote.height, vote.round, vote.voteType, bftVote, msg);
      var checked := CheckVoteSender(vote.height, vote.voter);
      if checked.Failure? { return Failure(checked.error); }
      return Success(bftVote);
    }

    method ForwardVote(sv: SignedVote) returns (r: Result<()>)
      modifies `voteCache, `trace, votes
      ensures (View(), r) == Engine.ForwardVote(env, old(View()), sv)
    {
      hide Engine.HandleSignedVote;
      var vote := HandleSignedVote(sv);
      if vote.Failure? { return Failure(vote.error); }
      SendBftMsg(ToVote(vote.value), ByVote(sv));
      return Success(());
    }

    method SendCacheVote(at: u64) returns (r: Result<()>)
      modifies `voteCache, `trace, votes
      ensures (View(), r) == Engine.SendCacheVote(env, old(View()), at)
    {
      hide Engine.ForwardVote;
      if at !in voteCache { return Success(()); }
      var cached := voteCache[at];
      voteCache := voteCache - {at};
      ghost var start := View();
      for i := 0 to |cached|
        invariant DrainVotes(env, View(), cached[i..]) == DrainVotes(env, start, cached)
      {
        var sent := ForwardVote(cached[i]);
        assert cached[i..][1..] == cached[i + 1..];
        if sent.Failure? { return sent; }
      }
      return Success(());
    }

    // ---- proposals from peers

    method CheckProposer(height: u64, round: u64, address: Address) returns (r: Result<()>)
      ensures r == ProposerCheck(View().authority, height, round, address)
    {
      var authorities := authority.authorities;
      if height == authority.authorityHOld { authorities := authority.authoritiesOld; }
      if authorities == [] { return Failure(NoAuthorityList); }
      var authList := IntoAddrSet(authorities);
      if height + round >= U64_BOUND { return Failure(Panicked); }
      var proposer := authList[(height + round) % |authorities|];
      if proposer == address { return Success(()); }
      return Failure(InvalidProposer);
    }

    method CheckSignedVote(height: u64, round: u64, hash: Hash, sv: SignedVote) returns (r: Result<Address>)
      modifies votes
      ensures (View(), r) == Engine.CheckSignedVote(env, old(View()), height, round, hash, sv)
    {
      hide StoreAdd;
      var vote := sv.vote;
      if this.height == 0 { return Failure(Panicked); }
      if height < this.height - 1 { return Failure(ObsoleteMsg); }
      if vote.proposal != hash { return Failure(BlockVerifyDiff); }
      var members := authority.addressSet;
      if height == authority.authorityHOld { members := authority.addressSetOld; }
      if vote.voter !in members { return Failure(InvalidVoter); }
      var address := env.recover(sv.signature, env.VoteDigest(vote));
      if address.None? { return Failure(SupportErr); }
      if address.value != vote.voter { return Failure(SignatureErr); }
      var _ := votes.Add(height, round, Prevote, ToBftVote(vote), sv);
      return Success(vote.voter);
    }

    method CheckLockVotes(p: Proposal) returns (r: Result<()>)
      modifies votes
      ensures (View(), r) == Engine.CheckLockVotes(env, old(View()), p)
    {
      hide Engine.CheckSignedVote;
      if p.lockRound.None? { return Success(()); }
      var senders: set<Address>, round := {}, p.lockRound.value;
      ghost var start := View();
      for i := 0 to |p.lockVotes|
        invariant CollectSenders(env, View(), p.height, round, p.hash, p.lockVotes[i..], senders)
                  == CollectSenders(env, start, p.height, round, p.hash, p.lockVotes, {})
      {
        var sender := CheckSignedVote(p.height, round, p.hash, p.lockVotes[i]);
        assert p.lockVotes[i..][1..] == p.lockVotes[i + 1..];
        if sender.Failure? { return Failure(sender.error); }
        if sender.value in senders { return Failure(BlockVerifyDiff); }
        senders := senders + {sender.value};
      }
      var above := authority.IsAboveThreshold(|senders|, p.height == authority.authorityHOld);
      var contains := authority.ContainsSender(senders, p.height == authority.authorityHOld);
      if above && contains { return Success(()); }
      return Failure(IllegalProposalLock);
    }

    method CheckProof(height: u64, proof: Proof) returns (r: Result<()>)
      modifies `proof
      ensures (View(), r) == CheckPreviousProof(env, old(View()), height, proof)
    {
      hide ProofVerified;
      if height != this.height { return Failure(ProofErr); }
      if height == 0 { return Failure(Panicked); }
      var authorities := authority.authorities;
      if authority.authorityHOld == height - 1 { authorities := authority.authoritiesOld; }
      var ok := VerifyProof(env, proof, height - 1, authorities);
      if !ok { return Failure(ProofErr); }
      if this.proof.None? || this.proof.value.height != height - 1 { this.proof := Some(proof); }
      return Success(());
    }

    method HandleSignedProposal(msg: SignedProposal) returns (r: Result<(BftProposal, Option<VerifyResp>)>)
      modifies `proof, votes, proposals
      ensures (View(), r) == Engine.HandleSignedProposal(env, old(View()), msg)
    {
      hide Engine.CheckLockVotes, CheckPreviousProof, ProposerCheck, ProposalsAdd;
      var p := msg.proposal;
      var address := env.recover(msg.signature, env.ProposalDigest(p));
      if address.None? { return Failure(SupportErr); }
      if p.proposer != address.value { return Failure(SignatureErr); }
      if height == 0 { return Failure(Panicked); }
      if p.height < height - 1 { return Failure(ObsoleteMsg); }
      if !env.logs(LogSignedProposal(msg)) { return Failure(SerJsonErr); }
      var _ := proposals.Add(p.height, p.round, msg);
      var bftProposal := ToBftProposal(p, p.hash);
      var proposer := CheckProposer(p.height, p.round, bftProposal.proposer);
      if proposer.Failure? { return Failure(proposer.error); }
      var lock := CheckLockVotes(p);
      if lock.Failure? { return Failure(lock.error); }
      if p.height == height - 1 { return Success((bftProposal, Some(VerifyResp(true, p.hash)))); }
      var resp: Option<VerifyResp> := None;
      if p.hash in verifiedBlock {
        resp := Some(VerifyResp(verifiedBlock[p.hash], p.hash));
      } else if p.hash !in blockOriginCache {
        return Failure(LoseBlock);
      }
      var checked := CheckProof(p.height, p.proof);
      if checked.Failure? { return Failure(checked.error); }
      return Success((bftProposal, resp));
    }

    method ForwardProposal(sp: SignedProposal) returns (r: Result<()>)
      modifies `proof, `trace, votes, proposals
      ensures (View(), r) == Engine.ForwardProposal(env, old(View()), sp)
    {
      hide Engine.HandleSignedProposal;
      var handled := HandleSignedProposal(sp);
      if handled.Failure? { return Failure(handled.error); }
      SendBftMsg(ToProposal(handled.value.0), ByProposal(sp));
      if handled.value.1.Some? { SendBftMsg(ToVerifyResp(handled.value.1.value), NoWire); }
      return Success(());
    }

    method SendCacheProposal(at: u64) returns (r: Result<()>)
      modifies `proposalCache, `proof, `trace, votes, proposals
      ensures (View(), r) == Engine.SendCacheProposal(env, old(View()), at)
    {
      hide Engine.ForwardProposal;
      if at !in proposalCache { return Success(()); }
      var cached := proposalCache[at];
      proposalCache := proposalCache - {at};
      ghost var start := View();
      for i := 0 to |cached|
        invariant DrainProposals(env, View(), cached[i..]) == DrainProposals(env, start, cached)
      {
        var sent := ForwardProposal(cached[i].signed);
        assert cached[i..][1..] == cached[i + 1..];
        if sent.Failure? { return sent; }
      }
      return Success(());
    }

    // ---- status

    method GotoNewHeight(at: u64)
      requires at + 1 < U64_BOUND
      modifies `verifiedBlock, `blockOriginCache, `height
      ensures View() == Engine.GotoNewHeight(old(View()), at)
    {
      verifiedBlock := map[];
      blockOriginCache := map[];
      height := at + 1;
    }

    method HandleRichStatus(rs: Status) returns (r: Result<BftStatus>)
      modifies `verifiedBlock, `blockOriginCache, `height, authority
      ensures (View(), r) == Engine.HandleRichStatus(env, old(View()), rs)
    {
      if rs.height < height { return Failure(ObsoleteMsg); }
      if !env.logs(LogStatus(rs)) { return Failure(SerJsonErr); }
      if rs.height + 1 == U64_BOUND { return Failure(Panicked); }
      authority.UpdateAuthority(height, rs.authorityList);
      GotoNewHeight(rs.height);
      return Success(ToBftStatus(rs));
    }

    // ---- outputs of the core

    method FindLockVotes(p: BftProposal) returns (r: Result<seq<SignedVote>>)
      modifies votes
      ensures (View(), r) == Engine.FindLockVotes(old(View()), p)
    {
      hide StoreGet;
      var res: seq<SignedVote> := [];
      if p.lockRound.None? { return Success(res); }
      var voteSet := votes.GetVoteSet(p.height, p.round, Prevote);
      if voteSet.None? { return Failure(NoVoteset); }
      PrependLaws([], [], LookUpVotes(voteSet.value, p.lockVotes));
      assert p.lockVotes[0..] == p.lockVotes;
      for i := 0 to |p.lockVotes|
        modifies {}
        invariant LookUpVotes(voteSet.value, p.lockVotes) == Prepend(res, LookUpVotes(voteSet.value, p.lockVotes[i..]))
      {
        ghost var rest := p.lockVotes[i..];
        assert rest[0] == p.lockVotes[i] && rest[1..] == p.lockVotes[i + 1..];
        if p.lockVotes[i] !in voteSet.value { return Failure(LoseSignedVote); }
        PrependLaws(res, [voteSet.value[p.lockVotes[i]]], LookUpVotes(voteSet.value, p.lockVotes[i + 1..]));
        res := res + [voteSet.value[p.lockVotes[i]]];
      }
      assert p.lockVotes[|p.lockVotes|..] == [] && res + [] == res;
      return Success(res);
    }

    method BuildSignedProposal(p: BftProposal) returns (r: Result<SignedProposal>)
      modifies votes
      ensures (View(), r) == Engine.BuildSignedProposal(env, old(View()), p)
    {
      hide Engine.FindLockVotes;
      if proof.None? && height != 1 { return Failure(MissingProof); }
      var lockVotes := FindLockVotes(p);
      if lockVotes.Failure? { return Failure(lockVotes.error); }
      var previous := if height == 1 then Proof(p.content, 0, 0, map[]) else proof.value;
      var proposal := Proposal(p.height, p.round, p.content, previous, p.lockRound, lockVotes.value, p.proposer);
      var signature := env.sign(env.ProposalDigest(proposal));
      if signature.None? { return Failure(SupportErr); }
      return Success(SignedProposal(proposal, signature.value));
    }

    method HandleProposal(p: BftProposal) returns (r: Result<Bytes>)
      modifies votes, proposals
      ensures (View(), r) == Engine.HandleProposal(env, old(View()), p)
    {
      hide Engine.BuildSignedProposal, ProposalsAdd, Framing.Combined, Framing.BlockFrame;
      if p.height != height { return Failure(BftCoreErr); }
      if !env.logs(LogProposal(p)) { return Failure(SerJsonErr); }
      var built := BuildSignedProposal(p);
      if built.Failure? { return Failure(built.error); }
      var _ := proposals.Add(p.height, p.round, built.value);
      if p.content !in blockOriginCache { return Failure(LoseBlock); }
      var content := env.encode(blockOriginCache[p.content]);
      if content.None? { return Failure(EncodeErr); }
      var block := Framing.EncodeBlock(height, content.value, p.content);
      var encode := Framing.Combine(env.rlp(Codec.SignedProposalItem(built.value)), block);
      return Success(encode);
    }

    method HandleVote(v: BftVote) returns (r: Result<SignedVote>)
      modifies votes
      ensures (View(), r) == Engine.HandleVote(env, old(View()), v)
    {
      hide StoreAdd;
      if v.height < height { return Failure(BftCoreErr); }
      if !env.logs(LogVote(v)) { return Failure(SerJsonErr); }
      var voteType := if v.voteType == Prevote then Prevote else Precommit;
      var vote := FromBftVote(v, voteType);
      var signature := env.sign(env.VoteDigest(vote));
      if signature.None? { return Failure(SupportErr); }
      var signed := SignedVote(vote, signature.value);
      var _ := votes.Add(v.height, v.round, voteType, v, signed);
      return Success(signed);
    }

    method GenerateProof(height: u64, round: u64, hash: Hash, bftVotes: seq<BftVote>) returns (r: Result<Proof>)
      modifies votes
      ensures (View(), r) == Engine.GenerateProof(old(View()), height, round, hash, bftVotes)
    {
      hide StoreGet;
      var tmp: map<Address, Signature> := map[];
      var voteSet := votes.GetVoteSet(height, round, Precommit);
      if voteSet.None? { return Failure(NoVoteset); }
      for i := 0 to |bftVotes|
        invariant CollectSignatures(voteSet.value, bftVotes[i..], tmp)
                  == CollectSignatures(voteSet.value, bftVotes, map[])
      {
        var v := bftVotes[i];
        assert bftVotes[i..][1..] == bftVotes[i + 1..];
        if v !in voteSet.value { return Failure(LoseSignedVote); }
        if v.voter !in tmp { tmp := tmp[v.voter := voteSet.value[v].signature]; }
      }
      return Success(Proof(hash, height, round, tmp));
    }

    method HandleCommit(c: BftCommit) returns (r: Result<Commit>)
      modifies `proof, votes
      ensures (View(), r) == Engine.HandleCommit(env, old(View()), c)
    {
      hide Engine.GenerateProof;
      if c.height < height { return Failure(BftCoreErr); }
      if !env.logs(LogCommit(c)) { return Failure(SerJsonErr); }
      if c.proposal !in blockOriginCache { return Failure(LoseBlock); }
      var content := blockOriginCache[c.proposal];
      var generated := GenerateProof(c.height, c.round, c.proposal, c.lockVotes);
      if generated.Failure? { return Failure(generated.error); }
      proof := Some(generated.value);
      return Success(Commit(c.height, content, generated.value, c.address));
    }

    // ---- the three sources of messages

    method ReceiveProposal(bytes: Bytes) returns (r: Result<()>)
      modifies `blockOriginCache, `proposalCache, `proof, `trace, votes, proposals
      ensures (View(), r) == Engine.ReceiveProposal(env, old(View()), bytes)
    {
      hide Engine.ForwardProposal, DecodeProposalMessage;
      var decoded := DecodeProposalMessage(env, bytes);
      if decoded.Failure? { return Failure(decoded.error); }
      var (sp, block, hash) := decoded.value;
      blockOriginCache := OrInsert(blockOriginCache, hash, block);
      var at := sp.proposal.height;
      if at > height && at - height < CACHE_NUMBER {
        if !env.logs(LogBytes(bytes)) { return Failure(SerJsonErr); }
        proposalCache := Push(proposalCache, at, Cached(sp, block, bytes));
        return Success(());
      }
      r := ForwardProposal(sp);
    }

    method ReceiveVote(bytes: Bytes) returns (r: Result<()>)
      modifies `voteCache, `trace, votes
      ensures (View(), r) == Engine.ReceiveVote(env, old(View()), bytes)
    {
      hide Engine.ForwardVote;
      var item := env.unrlp(bytes);
      if item.None? { return Failure(DecodeErr); }
      var sv := Codec.DecodeSignedVote(item.value);
      if sv.Failure? { return Failure(sv.error); }
      r := ForwardVote(sv.value);
    }

    method ReceiveStatus(rs: Status) returns (r: Result<()>)
      modifies this, authority, votes, proposals
      ensures (View(), r) == Engine.ReceiveStatus(env, old(View()), rs)
    {
      hide Engine.HandleRichStatus, Engine.SendCacheProposal, Engine.SendCacheVote;
      var status := HandleRichStatus(rs);
      if status.Failure? { return Failure(status.error); }
      var addresses := IntoAddrSet(rs.authorityList);
      if env.address in addresses {
        if !consensusPower {
          consensusPower := true;
          SendBftMsg(ToStart, NoWire);
        }
      } else if consensusPower {
        consensusPower := false;
        SendBftMsg(ToPause, NoWire);
      }
      SendBftMsg(ToStatus(status.value), ByStatus(rs));
      var drained := SendCacheProposal(height);
      if drained.Failure? { return drained; }
      r := SendCacheVote(height);
    }

    method CoreCommit(c: BftCommit, answer: Option<Status>) returns (r: Result<()>)
      modifies this, authority, votes, proposals
      ensures (View(), r) == Engine.CoreCommit(env, old(View()), c, answer)
    {
      hide Engine.HandleCommit, Engine.ReceiveStatus;
      var commit := HandleCommit(c);
      if commit.Failure? { return Failure(commit.error); }
      if answer.None? { return Failure(SupportErr); }
      r := ReceiveStatus(answer.value);
    }

    method ReceiveVerifyResp(vr: VerifyResp) returns (r: Result<()>)
      modifies `verifiedBlock, `trace
      ensures (View(), r) == Engine.ReceiveVerifyResp(env, old(View()), vr)
    {
      SendBftMsg(ToVerifyResp(vr), NoWire);
      if vr.proposal !in verifiedBlock { verifiedBlock := verifiedBlock[vr.proposal := vr.isPass]; }
      if !env.logs(LogVerifyResp(vr)) { return Failure(SerJsonErr); }
      return Success(());
    }

    method ReceiveFeed(f: Feed) returns (r: Result<()>)
      modifies `blockOriginCache, `trace
      ensures (View(), r) == Engine.ReceiveFeed(env, old(View()), f)
    {
      var hash := env.contentHash(f.content);
      SendBftMsg(ToFeed(BftFeed(f.height, hash)), NoWire);
      if hash !in blockOriginCache { blockOriginCache := blockOriginCache[hash := f.content]; }
      if !env.logs(LogFeed(f)) { return Failure(SerJsonErr); }
      return Success(());
    }

    /** One turn of the main loop, whichever channel it serves. */
    method Process(i: Input) returns (r: Result<()>)
      modifies this, authority, votes, proposals
      ensures (View(), r) == Engine.Process(env, old(View()), i)
    {
      hide Engine.ReceiveProposal, Engine.ReceiveVote, Engine.ReceiveStatus, Engine.HandleProposal, Engine.HandleVote,
           Engine.CoreCommit, Engine.ReceiveVerifyResp, Engine.ReceiveFeed;
      match i {
        case PeerProposal(bytes) => r := ReceiveProposal(bytes);
        case PeerVote(bytes) => r := ReceiveVote(bytes);
        case NewStatus(rs) => r := ReceiveStatus(rs);
        case CoreProposal(p) =>
          var bytes := HandleProposal(p);
          r := if bytes.Success? then Success(()) else Failure(bytes.error);
        case CoreVote(v) =>
          var signed := HandleVote(v);
          r := if signed.Success? then Success(()) else Failure(signed.error);
        case Committed(c, answer) => r := CoreCommit(c, answer);
        case ProposalRequest(_) => r := Success(());
        case Verified(vr) => r := ReceiveVerifyResp(vr);
        case Fed(f) => r := ReceiveFeed(f);
      }
    }
  }

  /** A successful lookup with some results put in front. */
  ghost function Prepend(found: seq<SignedVote>, rest: Result<seq<SignedVote>>): Result<seq<SignedVote>> {
    if rest.Success? then Success(found + rest.value) else rest
  }

  lemma PrependLaws(a: seq<SignedVote>, b: seq<SignedVote>, rest: Result<seq<SignedVote>>)
    ensures Prepend([], rest) == rest
    ensures Prepend(a, Prepend(b, rest)) == Prepend(a + b, rest)
  {
    if rest.Success? {
      assert [] + rest.value == rest.value;
      assert a + (b + rest.value) == (a + b) + rest.value;
    }
  }

  /** The main loop over a whole run of messages. */
  method Serve(env: Env, inputs: seq<Input>) returns (node: Consensus)
    ensures fresh(node) && node.env == env && node.View() == Run(env, inputs)
  {
    hide Engine.Process;
    node := new Consensus(env);
    for i := 0 to |inputs|
      invariant fresh(node) && fresh(node.authority) && fresh(node.votes) && fresh(node.proposals)
      invariant node.env == env && node.View() == Run(env, inputs[..i])
    {
      assert inputs[..i + 1][..i] == inputs[..i] && inputs[..i + 1][i] == inputs[i];
      var _ := node.Process(inputs[i]);
    }
    assert inputs[..|inputs|] == inputs;
  }
}
