/** Exactly which messages bring the program down, in which states. */
module Panics {
  import opened Prelude
  import opened Digits
  import opened Types
  import opened Env
  import LruCache
  import Proofs
  import opened Collection
  import opened Engine
  import opened Safety
  import opened History
  import opened Delivery
  import Codec
  import Framing

  // ---- decoding

  /** A length mark so large that adding its own eight bytes overflows. */
  predicate MarkOverflows(b: Bytes) {
    |b| >= Framing.MARK && BigValue(b[..Framing.MARK]) + Framing.MARK >= U64_BOUND
  }

  predicate BlockPanics(b: Bytes) {
    |b| < Framing.MARK || MarkOverflows(b[Framing.MARK..])
  }

  /** A well-formed vote whose type byte is neither of the two. */
  predicate VoteTypePanics(i: Codec.Item) {
    && i.List? && |i.items| == 5 && i.items[0].Str?
    && |i.items[0].bytes| == 1 && i.items[0].bytes[0] > 1
  }

  predicate SignedVotePanics(i: Codec.Item) {
    i.List? && |i.items| == 2 && VoteTypePanics(i.items[0])
  }

  /** The first vote of a list that does not decode has such a type byte. */
  predicate VotesPanic(items: seq<Codec.Item>) {
    exists k :: 0 <= k < |items| && SignedVotePanics(items[k])
                && forall j :: 0 <= j < k ==> Codec.DecodeSignedVote(items[j]).Success?
  }

  predicate ProposalItemPanics(i: Codec.Item) {
    && i.List? && |i.items| == 7
    && Codec.DecodeU64(i.items[0]).Success? && Codec.DecodeU64(i.items[1]).Success?
    && Codec.DecodeBytes(i.items[2]).Success? && Codec.DecodeProof(i.items[3]).Success?
    && Codec.DecodeOption(i.items[4]).Success?
    && i.items[5].List? && VotesPanic(i.items[5].items)
  }

  predicate SignedProposalItemPanics(i: Codec.Item) {
    i.List? && |i.items| == 2 && ProposalItemPanics(i.items[0])
  }

  predicate FramePanics(env: Env, bytes: Bytes) {
    var parts := Framing.Extract(bytes);
    || MarkOverflows(bytes)
    || (&& parts.Success? && env.unrlp(parts.value.0).Some?
        && var item := env.unrlp(parts.value.0).value;
           || SignedProposalItemPanics(item)
           || (Codec.DecodeSignedProposal(item).Success? && BlockPanics(parts.value.1)))
  }

  lemma BlockPanicsIff(b: Bytes)
    ensures Framing.Extract(b) == Failure(Panicked) <==> MarkOverflows(b)
    ensures Framing.DecodeBlock(b) == Failure(Panicked) <==> BlockPanics(b)
  {
    hide BigValue;
  }

  lemma VotePanicsIff(i: Codec.Item)
    ensures Codec.DecodeVote(i) == Failure(Panicked) <==> VoteTypePanics(i)
    ensures Codec.DecodeSignedVote(i) == Failure(Panicked) <==> SignedVotePanics(i)
  {
    VoteFieldPanicsIff(i);
    if i.List? && |i.items| == 2 { VoteFieldPanicsIff(i.items[0]); }
    hide Codec.DecodeVote;
  }

  lemma VoteFieldPanicsIff(i: Codec.Item)
    ensures Codec.DecodeVote(i) == Failure(Panicked) <==> VoteTypePanics(i)
  {
    if i.List? && |i.items| == 5 { TypePanicsIff(i.items[0]); }
    hide Codec.DecodeVoteType, Codec.DecodeInt;
  }

  lemma TypePanicsIff(i: Codec.Item)
    ensures Codec.DecodeVoteType(i) == Failure(Panicked) <==> i.Str? && |i.bytes| == 1 && i.bytes[0] > 1
  {
    if i.Str? && |i.bytes| == 1 { assert i.bytes[..0] == []; }
  }

  lemma {:induction false} VotesPanicIff(items: seq<Codec.Item>)
    ensures Codec.DecodeSignedVotes(items) == Failure(Panicked) <==> VotesPanic(items)
  {
    if items != [] {
      var rest := items[1..];
      VotesPanicIff(rest);
      VotePanicsIff(items[0]);
      hide Codec.DecodeSignedVote, SignedVotePanics;
      VotesPanicSplits(items);
      hide VotesPanic;
    }
  }

  lemma VotesPanicSplits(items: seq<Codec.Item>)
    requires items != []
    ensures VotesPanic(items) <==>
              SignedVotePanics(items[0]) || (Codec.DecodeSignedVote(items[0]).Success? && VotesPanic(items[1..]))
  {
    hide Codec.DecodeSignedVote, SignedVotePanics;
    var rest := items[1..];
    if VotesPanic(items) {
      var k :| 0 <= k < |items| && SignedVotePanics(items[k])
               && forall j :: 0 <= j < k ==> Codec.DecodeSignedVote(items[j]).Success?;
      if k > 0 {
        assert SignedVotePanics(rest[k - 1]);
        assert forall j :: 0 <= j < k - 1 ==> rest[j] == items[j + 1];
      }
    }
    if Codec.DecodeSignedVote(items[0]).Success? && VotesPanic(rest) {
      var k :| 0 <= k < |rest| && SignedVotePanics(rest[k])
               && forall j :: 0 <= j < k ==> Codec.DecodeSignedVote(rest[j]).Success?;
      assert SignedVotePanics(items[k + 1]);
      forall j | 0 <= j < k + 1 ensures Codec.DecodeSignedVote(items[j]).Success? {
        if j > 0 { assert items[j] == rest[j - 1]; }
      }
    }
  }

  lemma {:induction false} BytesListCalm(items: seq<Codec.Item>)
    ensures Codec.DecodeBytesList(items) != Failure(Panicked)
  {
    if items != [] { BytesListCalm(items[1..]); }
  }

  lemma ProofCalm(i: Codec.Item)
    ensures Codec.DecodeProof(i) != Failure(Panicked)
  {
    hide Codec.DecodeInt, Codec.DecodeBytesList;
    if i.List? && |i.items| == 5 && i.items[3].List? && i.items[4].List? {
      U64Calm(i.items[0]);
      U64Calm(i.items[1]);
      BytesListCalm(i.items[3].items);
      BytesListCalm(i.items[4].items);
    } else if i.List? && |i.items| == 5 {
      U64Calm(i.items[0]);
      U64Calm(i.items[1]);
    }
  }

  lemma U64Calm(i: Codec.Item)
    ensures Codec.DecodeU64(i) != Failure(Panicked)
  {
  }

  lemma ProposalItemPanicsIff(i: Codec.Item)
    ensures Codec.DecodeProposal(i) == Failure(Panicked) <==> ProposalItemPanics(i)
  {
    if i.List? && |i.items| == 7 {
      U64Calm(i.items[0]);
      U64Calm(i.items[1]);
      ProofCalm(i.items[3]);
      if i.items[4].List? && |i.items[4].items| == 1 { U64Calm(i.items[4].items[0]); }
      if i.items[5].List? { VotesPanicIff(i.items[5].items); }
    }
    hide Codec.DecodeU64, Codec.DecodeProof, Codec.DecodeSignedVotes, VotesPanic;
  }

  lemma FramePanicsIff(env: Env, bytes: Bytes)
    ensures DecodeProposalMessage(env, bytes) == Failure(Panicked) <==> FramePanics(env, bytes)
  {
    BlockPanicsIff(bytes);
    var parts := Framing.Extract(bytes);
    if parts.Success? && env.unrlp(parts.value.0).Some? {
      var item := env.unrlp(parts.value.0).value;
      BlockPanicsIff(parts.value.1);
      if item.List? && |item.items| == 2 { ProposalItemPanicsIff(item.items[0]); }
    }
    hide Framing.Extract, Framing.DecodeBlock, Codec.DecodeProposal, ProposalItemPanics, BlockPanics, MarkOverflows;
  }

  // ---- handling

  /** Height 0, where the height before it does not exist, or a height and round whose
      sum overflows when the proposer is looked up. */
  predicate ProposalPanics(env: Env, s: State, sp: SignedProposal) {
    var p := sp.proposal;
    && env.AuthenticProposal(sp)
    && (|| s.height == 0
        || (&& p.height >= s.height - 1 && env.logs(LogSignedProposal(sp))
            && s.authority.ListFor(p.height) != [] && p.height + p.round >= U64_BOUND))
  }

  predicate VotePanics(env: Env, s: State, sv: SignedVote) {
    s.height == 0 && env.recover(sv.signature, env.VoteDigest(sv.vote)).Some?
  }

  lemma {:induction false} SendersCalm(env: Env, s: State, height: u64, round: u64, hash: Hash,
                                       votes: seq<SignedVote>, senders: set<Address>)
    requires s.height > 0
    ensures CollectSenders(env, s, height, round, hash, votes, senders).1 != Failure(Panicked)
    decreases |votes|
  {
    if votes != [] {
      hide StoreAdd;
      var (s', r) := CheckSignedVote(env, s, height, round, hash, votes[0]);
      if r.Success? && r.value !in senders {
        SendersCalm(env, s', height, round, hash, votes[1..], senders + {r.value});
      }
    }
  }

  lemma LocksCalm(env: Env, s: State, p: Proposal)
    requires s.height > 0
    ensures CheckLockVotes(env, s, p).1 != Failure(Panicked)
  {
    hide CollectSenders;
    if p.lockRound.Some? { SendersCalm(env, s, p.height, p.lockRound.value, p.hash, p.lockVotes, {}); }
  }

  lemma ProposalPanicsIff(env: Env, s: State, sp: SignedProposal)
    ensures HandleSignedProposal(env, s, sp).1 == Failure(Panicked) <==> ProposalPanics(env, s, sp)
    ensures ForwardProposal(env, s, sp).1 == Failure(Panicked) <==> ProposalPanics(env, s, sp)
  {
    hide CheckLockVotes, ProposalsAdd, Proofs.ProofVerified;
    if s.height > 0 {
      var p := sp.proposal;
      LocksCalm(env, s.(proposals := ProposalsAdd(s.proposals, p.height, p.round, sp).0), p);
    }
  }

  lemma VotePanicIff(env: Env, s: State, sv: SignedVote)
    ensures ForwardVote(env, s, sv).1 == Failure(Panicked) <==> VotePanics(env, s, sv)
  {
    hide StoreAdd;
  }

  lemma {:induction false} DrainVotesCalm(env: Env, s: State, votes: seq<SignedVote>)
    requires s.height > 0
    ensures DrainVotes(env, s, votes).1 != Failure(Panicked)
    decreases |votes|
  {
    if votes != [] {
      VotePanicIff(env, s, votes[0]);
      hide HandleSignedVote;
      if ForwardVote(env, s, votes[0]).1.Success? { DrainVotesCalm(env, ForwardVote(env, s, votes[0]).0, votes[1..]); }
    }
  }

  /** A status height without a successor, or a first cached proposal that panics. */
  predicate StatusPanics(env: Env, s: State, rs: Status) {
    && rs.height >= s.height && env.logs(LogStatus(rs))
    && (|| rs.height + 1 == U64_BOUND
        || (&& rs.height + 1 in s.proposalCache && s.proposalCache[rs.height + 1] != []
            && ProposalPanics(env, Entered(env, s, rs), s.proposalCache[rs.height + 1][0].signed)))
  }

  lemma FirstCachedDecides(env: Env, s: State, cached: seq<Cached>)
    requires cached != [] && cached[0].signed.proposal.height == s.height
    requires s.verified == map[] && s.origin == map[]
    ensures DrainProposals(env, s, cached).1 == Failure(Panicked) <==> ProposalPanics(env, s, cached[0].signed)
  {
    ProposalPanicsIff(env, s, cached[0].signed);
    BlockLost(env, s, cached[0].signed);
    hide HandleSignedProposal, ProposalPanics;
  }

  lemma SamePanic(env: Env, s: State, s': State, sp: SignedProposal)
    requires s.height == s'.height && s.authority == s'.authority
    ensures ProposalPanics(env, s, sp) == ProposalPanics(env, s', sp)
  {
  }

  /** What the proposals cached for the height just entered do. */
  lemma CachedProposalsDecide(env: Env, s: State)
    requires ProposalCacheSound(s.proposalCache) && s.verified == map[] && s.origin == map[]
    ensures var (s', r) := SendCacheProposal(env, s, s.height);
            if s.height in s.proposalCache then
              && r.Failure? && s.proposalCache[s.height] != []
              && (r == Failure(Panicked) <==> ProposalPanics(env, s, s.proposalCache[s.height][0].signed))
            else r.Success? && s' == s
  {
    hide DrainProposals, ProposalPanics;
    if s.height in s.proposalCache {
      var cached := s.proposalCache[s.height];
      assert cached[0] in cached;
      var s1 := s.(proposalCache := s.proposalCache - {s.height});
      FirstCachedDecides(env, s1, cached);
      SamePanic(env, s, s1, cached[0].signed);
      CachedProposalRefused(env, s1, cached);
    }
  }

  lemma CachedVotesCalm(env: Env, s: State, height: u64)
    requires s.height > 0
    ensures SendCacheVote(env, s, height).1 != Failure(Panicked)
  {
    hide DrainVotes;
    if height in s.voteCache { DrainVotesCalm(env, s.(voteCache := s.voteCache - {height}), s.voteCache[height]); }
  }

  lemma StatusPanicsIff(env: Env, s: State, rs: Status)
    requires ProposalCacheSound(s.proposalCache)
    ensures ReceiveStatus(env, s, rs).1 == Failure(Panicked) <==> StatusPanics(env, s, rs)
  {
    hide SendCacheProposal, SendCacheVote, ProposalPanics, ProposalCacheSound;
    if HandleRichStatus(env, s, rs).1.Success? {
      var entered := Entered(env, s, rs);
      CachedProposalsDecide(env, entered);
      CachedVotesCalm(env, entered, entered.height);
    }
  }

  lemma {:induction false} LookupsCalm(stored: VoteSet, votes: seq<BftVote>, sigs: map<Address, Signature>)
    ensures LookUpVotes(stored, votes) != Failure(Panicked)
    ensures CollectSignatures(stored, votes, sigs) != Failure(Panicked)
    decreases |votes|
  {
    if votes != [] {
      LookupsCalm(stored, votes[1..], sigs);
      if votes[0] in stored {
        LookupsCalm(stored, votes[1..], OrInsert(sigs, votes[0].voter, stored[votes[0]].signature));
      }
    }
  }

  lemma ProposingCalm(env: Env, s: State, p: BftProposal)
    ensures HandleProposal(env, s, p).1 != Failure(Panicked)
  {
    hide StoreGet, LookUpVotes, ProposalsAdd;
    var found := StoreGet(s.votes, p.height, p.round, Prevote).1;
    if found.Some? { LookupsCalm(found.value, p.lockVotes, map[]); }
  }

  lemma CommittingCalm(env: Env, s: State, c: BftCommit)
    ensures HandleCommit(env, s, c).1 != Failure(Panicked)
  {
    hide StoreGet, CollectSignatures;
    var found := StoreGet(s.votes, c.height, c.round, Precommit).1;
    if found.Some? { LookupsCalm(found.value, c.lockVotes, map[]); }
  }

  /** The messages that bring the program down. */
  predicate Panics(env: Env, s: State, i: Input) {
    match i
    case PeerProposal(bytes) =>
      var decoded := DecodeProposalMessage(env, bytes);
      || FramePanics(env, bytes)
      || (&& decoded.Success?
          && var (sp, block, hash) := decoded.value;
             !(s.height < sp.proposal.height < s.height + 16) && ProposalPanics(env, s, sp))
    case PeerVote(bytes) =>
      && env.unrlp(bytes).Some?
      && var item := env.unrlp(bytes).value;
         || SignedVotePanics(item)
         || (Codec.DecodeSignedVote(item).Success? && VotePanics(env, s, Codec.DecodeSignedVote(item).value))
    case NewStatus(rs) => StatusPanics(env, s, rs)
    case Committed(c, answer) =>
      HandleCommit(env, s, c).1.Success? && answer.Some? && StatusPanics(env, HandleCommit(env, s, c).0, answer.value)
    case _ => false
  }

  lemma FrameHandledPanicsIff(env: Env, s: State, bytes: Bytes)
    ensures ReceiveProposal(env, s, bytes).1 == Failure(Panicked) <==> Panics(env, s, PeerProposal(bytes))
  {
    FramePanicsIff(env, bytes);
    var decoded := DecodeProposalMessage(env, bytes);
    if decoded.Success? {
      var (sp, block, hash) := decoded.value;
      var s1 := s.(origin := OrInsert(s.origin, hash, block));
      ProposalPanicsIff(env, s1, sp);
      SamePanic(env, s, s1, sp);
    }
    hide ForwardProposal, DecodeProposalMessage, FramePanics, ProposalPanics;
  }

  lemma VoteHandledPanicsIff(env: Env, s: State, bytes: Bytes)
    ensures ReceiveVote(env, s, bytes).1 == Failure(Panicked) <==> Panics(env, s, PeerVote(bytes))
  {
    if env.unrlp(bytes).Some? {
      var item := env.unrlp(bytes).value;
      VotePanicsIff(item);
      if Codec.DecodeSignedVote(item).Success? { VotePanicIff(env, s, Codec.DecodeSignedVote(item).value); }
    }
    hide ForwardVote, Codec.DecodeSignedVote, SignedVotePanics, VotePanics;
  }

  /** In every state that a run reaches, a message brings the program down exactly when
      `Panics` says so. */
  lemma PanicsIff(env: Env, inputs: seq<Input>, i: Input)
    requires env.SignsForItself() && OwnVotes(env, inputs)
    ensures Process(env, Run(env, inputs), i).1 == Failure(Panicked) <==> Panics(env, Run(env, inputs), i)
  {
    RunSound(env, inputs);
    hide Run;
    var s := Run(env, inputs);
    StepPanicsIff(env, s, i);
  }

  lemma StepPanicsIff(env: Env, s: State, i: Input)
    requires ProposalCacheSound(s.proposalCache)
    ensures Process(env, s, i).1 == Failure(Panicked) <==> Panics(env, s, i)
  {
    hide ReceiveProposal, ReceiveVote, ReceiveStatus, HandleProposal, HandleVote, HandleCommit, ProposalCacheSound,
         FramePanics, StatusPanics, DecodeProposalMessage, ProposalPanics;
    match i {
      case PeerProposal(bytes) => FrameHandledPanicsIff(env, s, bytes);
      case PeerVote(bytes) => VoteHandledPanicsIff(env, s, bytes);
      case NewStatus(rs) => StatusPanicsIff(env, s, rs);
      case CoreProposal(p) => ProposingCalm(env, s, p);
      case CoreVote(v) => VotingCalm(env, s, v);
      case Committed(c, answer) =>
        CommittingCalm(env, s, c);
        if answer.Some? { StatusPanicsIff(env, HandleCommit(env, s, c).0, answer.value); }
      case _ =>
    }
  }

  lemma VotingCalm(env: Env, s: State, v: BftVote)
    ensures HandleVote(env, s, v).1 != Failure(Panicked)
  {
    hide StoreAdd;
  }
}
