/** Concrete runs of a network of one node, showing that the situations which the
    other theorems speak of do arise. */
module Scenario {
  import opened Prelude
  import opened Types
  import opened Env
  import opened Collection
  import Proofs
  import opened Engine
  import opened Safety
  import opened History
  import opened Commits
  import opened Transport
  import opened Acceptance
  import opened Waiting
  import opened KeptProof
  import opened Delivery
  import opened EndToEnd
  import opened Blocks
  import opened Relock
  import opened ItemCode
  import Codec
  import Framing

  const ADDRESS: Address := [1]
  const MEMBERS: seq<Node> := [Node(ADDRESS, 1, 1)]

  /** A signature is the signer's address, a hash the hashed bytes, a content one byte. */
  ghost function Solo(): Env {
    Env(ADDRESS, (b: Bytes) => b, (sig: Signature, digest: Hash) => Some(sig), (digest: Hash) => Some(ADDRESS),
        (i: Codec.Item) => Code(i), (b: Bytes) => Uncode(b),
        (c: Content) => Some(ByteOf(c)), (b: Bytes) => if |b| == 1 then Some(Content(b[0])) else None,
        (c: Content) => ByteOf(c), (r: LogRecord) => true)
  }

  function ByteOf(c: Content): Bytes { [c.token % 256] }

  lemma SoloLaws()
    ensures Solo().SignsForItself() && Understands(Solo(), Solo()) && SameCrypto(Solo(), Solo())
  {
    forall i ensures Solo().unrlp(Solo().rlp(i)) == Some(i) { UncodeCode(i); }
  }

  // ---- the steps the runs are made of

  function Enter(height: u64): Input { NewStatus(Status(height, None, MEMBERS)) }

  function Feeds(height: u64, token: byte): Input { Fed(Feed(height, Content(token))) }

  function Block(token: byte): Hash { [token] }

  /** Nothing waits in the caches and nothing but this node's votes has come in. */
  ghost predicate Alone(s: State) {
    s.proposalCache == map[] && s.voteCache == map[] && s.authority.list == MEMBERS && s.height > 0
  }

  /** A height for which nothing waits is entered without further ado. */
  lemma QuietStatus(env: Env, s: State, rs: Status)
    requires HandleRichStatus(env, s, rs).1.Success?
    requires rs.height + 1 !in s.proposalCache && rs.height + 1 !in s.voteCache
    ensures ReceiveStatus(env, s, rs) == (Entered(env, s, rs), Success(()))
  {
    hide DrainProposals, DrainVotes;
    var entered := Entered(env, s, rs);
    assert entered.height == rs.height + 1;
    assert entered.proposalCache == s.proposalCache && entered.voteCache == s.voteCache;
  }

  lemma Beginning(env: Env)
    ensures Run(env, []) == Initial() && Statuses([]) == []
  {
  }

  lemma EnteredTrace(env: Env, s: State, rs: Status)
    requires HandleRichStatus(env, s, rs).1.Success?
    ensures Statuses(Entered(env, s, rs).trace) == Statuses(s.trace) + [rs]
  {
    hide Statuses, Switched, Placed, AddressSet;
    var s1 := HandleRichStatus(env, s, rs).0;
    var s2 := SwitchPower(env, s1, env.address in AddressSet(rs.authorityList));
    TraceStep(s1.trace, Event(ToStart, s1.height, s1.authority, NoWire));
    TraceStep(s1.trace, Event(ToPause, s1.height, s1.authority, NoWire));
    TraceStep(s2.trace, Event(ToStatus(ToBftStatus(rs)), s2.height, s2.authority, ByStatus(rs)));
  }

  lemma Enters(env: Env, before: seq<Input>, rs: Status)
    requires var s := Run(env, before);
             s.proposalCache == map[] && s.voteCache == map[] && HandleRichStatus(env, s, rs).1.Success?
    ensures var s, s' := Run(env, before), Run(env, before + [NewStatus(rs)]);
            && s'.proposalCache == map[] && s'.voteCache == map[] && s'.authority.list == rs.authorityList
            && s'.height == rs.height + 1 && s'.proof == s.proof && s'.origin == map[]
            && Statuses(s'.trace) == Statuses(s.trace) + [rs]
  {
    hide Run, Statuses;
    RunStep(env, before, NewStatus(rs));
    QuietStatus(env, Run(env, before), rs);
    EnteredTrace(env, Run(env, before), rs);
    hide ReceiveStatus;
  }

  lemma Entering(before: seq<Input>, height: u64)
    requires var s := Run(Solo(), before);
             s.proposalCache == map[] && s.voteCache == map[] && s.height <= height < U64_BOUND - 1
    ensures var s, s' := Run(Solo(), before), Run(Solo(), before + [Enter(height)]);
            && Alone(s') && s'.height == height + 1 && s'.proof == s.proof && s'.origin == map[]
            && Statuses(s'.trace) == Statuses(s.trace) + [Status(height, None, MEMBERS)]
  {
    hide Run, Statuses;
    Enters(Solo(), before, Status(height, None, MEMBERS));
  }

  lemma Feeding(before: seq<Input>, height: u64, token: byte)
    ensures var s, s' := Run(Solo(), before), Run(Solo(), before + [Feeds(height, token)]);
            && s'.origin == OrInsert(s.origin, Block(token), Content(token))
            && s'.height == s.height && s'.votes == s.votes && s'.proof == s.proof
            && s'.proposalCache == s.proposalCache && s'.voteCache == s.voteCache && s'.authority == s.authority
  {
    RunStep(Solo(), before, Feeds(height, token));
    hide Run;
  }

  lemma Votes(env: Env, before: seq<Input>, v: BftVote)
    requires env.SignsForItself() && OwnVotes(env, before) && v.voter == env.address
    requires v.height == Run(env, before).height && env.logs(LogVote(v))
    requires env.sign(env.VoteDigest(FromBftVote(v, v.voteType))).Some?
    ensures OwnVotes(env, before + [CoreVote(v)])
    ensures var s, s' := Run(env, before), Run(env, before + [CoreVote(v)]);
            v in Slot(s'.votes, v.height, v.round, v.voteType) && s' == s.(votes := s'.votes)
  {
    RunSound(env, before);
    RunStep(env, before, CoreVote(v));
    hide Run, HandleVote, Slot, Inv, Env.SignsForItself;
    OwnVoteSentIff(env, Run(env, before), v);
  }

  lemma Voting(before: seq<Input>, v: BftVote)
    requires v.voter == ADDRESS && OwnVotes(Solo(), before) && v.height == Run(Solo(), before).height
    ensures OwnVotes(Solo(), before + [CoreVote(v)])
    ensures var s, s' := Run(Solo(), before), Run(Solo(), before + [CoreVote(v)]);
            v in Slot(s'.votes, v.height, v.round, v.voteType) && s' == s.(votes := s'.votes)
  {
    hide Run, Slot, OwnVotes, Env.SignsForItself, Understands, SameCrypto;
    SoloLaws();
    Votes(Solo(), before, v);
  }

  /** Height 1 entered, block 7 known, and an own vote for it cast in round 0. */
  function Opening(voteType: VoteType): seq<Input> {
    [Enter(0), Feeds(1, 7), CoreVote(OwnVote(voteType))]
  }

  function OwnVote(voteType: VoteType): BftVote { BftVote(voteType, 1, 0, Block(7), ADDRESS) }

  lemma Opened(voteType: VoteType)
    ensures OwnVotes(Solo(), Opening(voteType))
    ensures var s := Run(Solo(), Opening(voteType));
            && Alone(s) && s.height == 1 && Block(7) in s.origin && s.origin[Block(7)] == Content(7)
            && OwnVote(voteType) in Slot(s.votes, 1, 0, voteType)
            && Statuses(s.trace) == [Status(0, None, MEMBERS)]
  {
    hide Run, Statuses, Slot;
    var a, b := [Enter(0)], [Enter(0), Feeds(1, 7)];
    assert [] + [Enter(0)] == a && a + [Feeds(1, 7)] == b && b + [CoreVote(OwnVote(voteType))] == Opening(voteType);
    Beginning(Solo());
    Entering([], 0);
    Feeding(a, 1, 7);
    FeedQuiet(a, 1, 7);
    Voting(b, OwnVote(voteType));
  }

  lemma FeedQuiet(before: seq<Input>, height: u64, token: byte)
    ensures Statuses(Run(Solo(), before + [Feeds(height, token)]).trace) == Statuses(Run(Solo(), before).trace)
  {
    RunStep(Solo(), before, Feeds(height, token));
    var s := Run(Solo(), before);
    hide Run, Statuses;
    TraceStep(s.trace, Event(ToFeed(BftFeed(height, Block(token))), s.height, s.authority, NoWire));
  }

  // ---- a commit, and the next height's proposal

  function OwnCommit(): BftCommit { BftCommit(1, 0, Block(7), [OwnVote(Precommit)], ADDRESS) }

  function NextStatus(): Status { Status(1, None, MEMBERS) }

  function NextProposal(): BftProposal { OwnProposal(2, 8) }

  function CommitRun(): seq<Input> { Onward(Opening(Precommit), OwnCommit(), NextStatus(), [Feeds(2, 8)]) }

  function PeerRun(): seq<Input> { [Enter(0), Enter(1)] }

  /** A single stored precommit is enough for a commit. */
  lemma CommitOfOne(env: Env, s: State, c: BftCommit, v: BftVote)
    requires Inv(env, s) && c.lockVotes == [v] && v in Slot(s.votes, c.height, c.round, Precommit)
    requires s.height <= c.height && env.logs(LogCommit(c)) && c.proposal in s.origin
    ensures HandleCommit(env, s, c).1.Success?
  {
    hide HandleCommit, Slot, Inv;
    StoredMeansPeeked(s.votes, c.height, c.round, Precommit, v);
    CommitSucceedsIff(env, s, c);
  }

  lemma OneVoter()
    ensures BftVoters(OwnCommit().lockVotes) == {ADDRESS}
  {
    BftVotersOf(OwnCommit().lockVotes);
    assert BftVoters(OwnCommit().lockVotes[1..]) == {};
  }

  lemma CommitHappens()
    ensures HandleCommit(Solo(), Run(Solo(), Opening(Precommit)), OwnCommit()).1.Success?
    ensures BftVoters(OwnCommit().lockVotes) == {ADDRESS}
  {
    Opened(Precommit);
    SoloLaws();
    RunSound(Solo(), Opening(Precommit));
    OneVoter();
    hide Run, HandleCommit, Slot, Inv, Env.SignsForItself, Understands, Alone, BftVoters;
    CommitOfOne(Solo(), Run(Solo(), Opening(Precommit)), OwnCommit(), OwnVote(Precommit));
  }

  lemma StoredMeansPeeked(st: VoteStore, height: u64, round: u64, t: VoteType, b: BftVote)
    requires b in Slot(st, height, round, t)
    ensures Peek(st, height, round, t).Some?
  {
  }

  lemma StatusAccepted(s: State)
    requires s.height <= 1
    ensures HandleRichStatus(Solo(), s, NextStatus()).1.Success?
  {
  }

  lemma CommitEnters(env: Env, inputs: seq<Input>, c: BftCommit, rs: Status)
    requires env.SignsForItself() && OwnVotes(env, inputs) && HandleCommit(env, Run(env, inputs), c).1.Success?
    requires rs.height == c.height && HandleRichStatus(env, HandleCommit(env, Run(env, inputs), c).0, rs).1.Success?
    requires Run(env, inputs).proposalCache == map[] && Run(env, inputs).voteCache == map[]
    ensures var s' := Run(env, inputs + [Committed(c, Some(rs))]);
            s'.height == c.height + 1 && s'.proposalCache == map[] && s'.voteCache == map[]
  {
    hide Run, HandleCommit;
    RunStep(env, inputs, Committed(c, Some(rs)));
    QuietStatus(env, HandleCommit(env, Run(env, inputs), c).0, rs);
    hide ReceiveStatus;
  }

  lemma CommitRunStays()
    ensures CommitsThenStays(Solo(), Opening(Precommit), OwnCommit(), NextStatus(), [Feeds(2, 8)])
    ensures OwnVotes(Solo(), CommitRun())
    ensures var s := Run(Solo(), CommitRun());
            s.height == 2 && Block(8) in s.origin && s.proposalCache == map[] && s.voteCache == map[]
  {
    CommitHappens();
    Opened(Precommit);
    SoloLaws();
    hide Run, HandleCommit, HandleRichStatus, Slot, Solo;
    StatusAccepted(HandleCommit(Solo(), Run(Solo(), Opening(Precommit)), OwnCommit()).0);
    CommitEnters(Solo(), Opening(Precommit), OwnCommit(), NextStatus());
    Feeding(Opening(Precommit) + [Committed(OwnCommit(), Some(NextStatus()))], 2, 8);
  }

  lemma OneSignature(proof: Proof)
    requires proof.votes.Keys == {ADDRESS}
    requires forall voter | voter in proof.votes :: Proofs.RecoveredFrom(Solo(), proof, voter) == Some(voter)
    ensures proof.votes == map[ADDRESS := ADDRESS]
  {
    assert ADDRESS in proof.votes;
  }

  /** The proof that the run has built is signed by its one voter. */
  lemma TinyCommitProof()
    ensures var proof := Run(Solo(), CommitRun()).proof;
            proof.Some? && proof.value.height == 1 && proof.value.round == 0 && proof.value.blockHash == Block(7)
            && proof.value.votes == map[ADDRESS := ADDRESS]
  {
    Opened(Precommit);
    CommitHappens();
    CommitRunStays();
    SoloLaws();
    RunSound(Solo(), Opening(Precommit));
    hide Run, HandleCommit, Inv, CommitsThenStays, Solo, Slot, Alone, Env.SignsForItself, Understands, BftVoters,
         Proofs.RecoveredFrom;
    CommitProofKept(Solo(), Opening(Precommit), OwnCommit(), NextStatus(), [Feeds(2, 8)]);
    CommitProofSigned(Solo(), Run(Solo(), Opening(Precommit)), OwnCommit());
    OneSignature(HandleCommit(Solo(), Run(Solo(), Opening(Precommit)), OwnCommit()).1.value.proof);
  }

  lemma NextProposed()
    ensures Proposes(Solo(), Run(Solo(), CommitRun()), NextProposal())
  {
    CommitRunStays();
    TinyCommitProof();
    hide Run, CommitsThenStays, Proposes;
    ProposalFits(Run(Solo(), CommitRun()), 2, 8);
  }

  function OwnProposal(height: byte, token: byte): BftProposal {
    BftProposal(height, 0, Block(token), None, [], ADDRESS)
  }

  lemma ProposalFits(s: State, height: byte, token: byte)
    requires s.height == height > 1 && Block(token) in s.origin && s.proof.Some?
    requires s.proof.value.height == 1 && s.proof.value.round == 0 && s.proof.value.blockHash == Block(7)
    requires s.proof.value.votes == map[ADDRESS := ADDRESS]
    ensures Proposes(Solo(), s, OwnProposal(height, token))
  {
    hide Codec.SignedProposalItem, Code, ProposalsAdd, Codec.ProposalItem;
    var sp := BuildSignedProposal(Solo(), s, OwnProposal(height, token)).1.value;
    assert sp.proposal == Proposal(height, 0, Block(token), s.proof.value, None, [], ADDRESS);
    assert sp.signature == ADDRESS;
    TinyShort(sp);
  }

  lemma PeerEnters()
    ensures var s := Run(Solo(), PeerRun());
            s.height == 2 && Statuses(s.trace) == [Status(0, None, MEMBERS)] + [NextStatus()]
  {
    hide Run, Statuses, Solo;
    assert [] + [Enter(0)] == [Enter(0)] && [Enter(0)] + [Enter(1)] == PeerRun();
    Beginning(Solo());
    Entering([], 0);
    Entering([Enter(0)], 1);
  }

  lemma PeerVotesNot()
    ensures OwnVotes(Solo(), PeerRun())
  {
    hide Solo;
  }

  lemma PeerFollows()
    ensures OwnVotes(Solo(), PeerRun()) && ConsecutiveAt(Solo(), PeerRun(), 2)
    ensures Statuses(Run(Solo(), PeerRun()).trace) == [Status(0, None, MEMBERS), NextStatus()]
  {
    PeerEnters();
    PeerVotesNot();
    BothConsecutive();
    assert [Status(0, None, MEMBERS)] + [NextStatus()] == [Status(0, None, MEMBERS), NextStatus()];
    hide Run, Statuses, Consecutive, Solo, OwnVotes, PeerRun, NextStatus;
  }

  lemma BothConsecutive()
    ensures Consecutive([Status(0, None, MEMBERS), NextStatus()])
  {
    var first, both := [Status(0, None, MEMBERS)], [Status(0, None, MEMBERS), NextStatus()];
    assert first[..0] == [] && both[..1] == first;
    assert Consecutive(first);
  }

  /** All that `NextProposalTaken` asks for happens in this run, and the peer takes
      the proposal. */
  lemma NextProposalHappens()
    ensures var env, p := Solo(), NextProposal();
            && env.SignsForItself() && Understands(env, env) && SameCrypto(env, env)
            && OwnVotes(env, CommitRun()) && OwnVotes(env, PeerRun())
            && CommitsThenStays(env, Opening(Precommit), OwnCommit(), NextStatus(), [Feeds(2, 8)])
            && Proposes(env, Run(env, CommitRun()), p) && ConsecutiveAt(env, PeerRun(), OwnCommit().height + 1)
            && var bytes := HandleProposal(env, Run(env, CommitRun()), p).1.value;
            && ReceiveProposal(env, Run(env, PeerRun()), bytes).1.Success?
  {
    var env, p := Solo(), NextProposal();
    SoloLaws();
    CommitRunStays();
    NextProposed();
    PeerFollows();
    CommitHappens();
    hide Run, Statuses, Env.SignsForItself, CommitsThenStays, Proposes, ConsecutiveAt, HandleProposal, ReceiveProposal,
         BuildSignedProposal, Understands, BftVoters;
    NextProposalTaken(env, Opening(Precommit), OwnCommit(), NextStatus(), [Feeds(2, 8)], p, env, PeerRun());
    Unlocked(env, p);
    MembersInForce();
  }

  lemma Unlocked(env: Env, p: BftProposal)
    requires env == Solo() && p == NextProposal() && Proposes(env, Run(env, CommitRun()), p)
    ensures BuildSignedProposal(env, Run(env, CommitRun()), p).1.Success?
            && BuildSignedProposal(env, Run(env, CommitRun()), p).1.value.proposal.lockRound.None?
  {
    hide Run;
  }

  lemma MembersInForce()
    ensures var hs := [Status(0, None, MEMBERS), NextStatus()];
            && RightfulProposer(InForce(hs, 2), 2, 0, ADDRESS)
            && Quorum({ADDRESS}, InForce(hs, 1))
  {
    var hs := [Status(0, None, MEMBERS), NextStatus()];
    assert hs[..1] == [Status(0, None, MEMBERS)];
    assert InForce(hs, 2) == MEMBERS && InForce(hs, 1) == MEMBERS;
    assert MEMBERS[0].address in AddressSet(MEMBERS);
  }

  // ---- a locked block that cannot be proposed again

  function Reproposal(): BftProposal {
    BftProposal(1, 1, Block(7), Some(0), [OwnVote(Prevote)], ADDRESS)
  }

  /** The core is locked in round 0 and proposes the block again in round 1: the vote
      lies stored at the lock round, the block is known, and the proposal fails. */
  lemma ReproposalHappens()
    ensures var s := Run(Solo(), Opening(Prevote));
            && OwnVotes(Solo(), Opening(Prevote)) && s.height == 1 && Block(7) in s.origin
            && (forall v | v in Reproposal().lockVotes :: v in Slot(s.votes, 1, Reproposal().lockRound.value, Prevote))
            && FindLockVotes(s, Reproposal()).1.Failure?
            && HandleProposal(Solo(), s, Reproposal()).1.Failure?
  {
    Opened(Prevote);
    SoloLaws();
    NothingReceived();
    hide Run, Received, Slot, FindLockVotes, HandleProposal;
    assert forall v | v in Reproposal().lockVotes :: v == OwnVote(Prevote);
    ReproposalFails(Solo(), Opening(Prevote), Reproposal());
  }

  lemma NothingReceived()
    ensures Received(Solo(), Opening(Prevote)) == {}
  {
    var one, two, all := [Enter(0)], [Enter(0), Feeds(1, 7)], Opening(Prevote);
    assert one[..0] == [] && two[..1] == one && all[..2] == two;
    assert Received(Solo(), one) == {};
    assert Received(Solo(), two) == {};
  }

  // ---- a commit of a block that a frame has misnamed

  function Frame(height: byte): Bytes {
    Framing.Combined(Code(Codec.SignedProposalItem(Unsigned(height))), Framing.BlockFrame(height, [9], Block(7)))
  }

  /** A proposal that nobody has signed. */
  function Unsigned(height: byte): SignedProposal {
    SignedProposal(Proposal(height, 0, Block(7), Proof([], 0, 0, map[]), None, [], []), [])
  }

  lemma FrameDecodes(height: byte)
    ensures DecodeProposalMessage(Solo(), Frame(height)) == Success((Unsigned(height), Content(9), Block(7)))
  {
    hide Framing.Extract, Framing.Combined, Framing.DecodeBlock, Framing.BlockFrame, Codec.DecodeSignedProposal,
         Codec.SignedProposalItem;
    TinyShort(Unsigned(height));
    var block := Framing.BlockFrame(height, [9], Block(7));
    Framing.ExtractInvertsCombine(Code(Codec.SignedProposalItem(Unsigned(height))), block);
    Framing.DecodeInvertsEncodeBlock(height, [9], Block(7));
    Codec.SignedProposalRoundTrip(Unsigned(height));
    UncodeCode(Codec.SignedProposalItem(Unsigned(height)));
  }

  /** The height is entered, the frame arrives, and the node's own precommit makes
      the commit possible. */
  function MisnamedRun(): seq<Input> { [Enter(0)] + [PeerProposal(Frame(1))] + [CoreVote(OwnVote(Precommit))] }

  lemma FrameComes(env: Env, before: seq<Input>, bytes: Bytes)
    ensures var s, s' := Run(env, before), Run(env, before + [PeerProposal(bytes)]);
            var decoded := DecodeProposalMessage(env, bytes);
            s'.height == s.height && (decoded.Success? ==> decoded.value.2 in s'.origin)
  {
    hide Run, DecodeProposalMessage, ReceiveProposal;
    RunStep(env, before, PeerProposal(bytes));
    FrameIsKept(env, Run(env, before), bytes);
  }

  lemma FirstEntered()
    ensures Run(Solo(), [Enter(0)]).height == 1
  {
    hide Run, Statuses, Solo;
    assert [] + [Enter(0)] == [Enter(0)];
    Beginning(Solo());
    Entering([], 0);
  }

  lemma FrameArrives()
    ensures var s := Run(Solo(), [Enter(0)] + [PeerProposal(Frame(1))]);
            s.height == Run(Solo(), [Enter(0)]).height == 1 && Block(7) in s.origin
  {
    FrameDecodes(1);
    FirstEntered();
    hide Run, Frame, DecodeProposalMessage, Solo;
    FrameComes(Solo(), [Enter(0)], Frame(1));
  }

  lemma MisnamedRunReaches()
    ensures OwnVotes(Solo(), MisnamedRun())
    ensures var s := Run(Solo(), MisnamedRun());
            && s.height == Run(Solo(), [Enter(0)]).height == 1
            && OwnVote(Precommit) in Slot(s.votes, 1, 0, Precommit) && Block(7) in s.origin
  {
    FrameArrives();
    hide Run, Slot, Frame, Solo;
    Voting([Enter(0)] + [PeerProposal(Frame(1))], OwnVote(Precommit));
  }

  lemma MisnamedCommitSucceeds()
    ensures HandleCommit(Solo(), Run(Solo(), MisnamedRun()), OwnCommit()).1.Success?
  {
    MisnamedRunReaches();
    SoloLaws();
    hide Run, Slot, HandleCommit, MisnamedRun, Inv, Env.SignsForItself, Understands;
    RunSound(Solo(), MisnamedRun());
    CommitOfOne(Solo(), Run(Solo(), MisnamedRun()), OwnCommit(), OwnVote(Precommit));
  }

  /** The commit succeeds and hands out a content that does not hash to its block. */
  lemma MisnamedCommit()
    ensures var r := HandleCommit(Solo(), Run(Solo(), MisnamedRun()), OwnCommit()).1;
            OwnVotes(Solo(), MisnamedRun()) && r.Success? && Solo().contentHash(r.value.result) != OwnCommit().proposal
  {
    MisnamedRunReaches();
    MisnamedCommitSucceeds();
    NothingKnown();
    FrameDecodes(1);
    hide Run, Slot, Frame, DecodeProposalMessage, HandleCommit;
    FrameDecides(Solo(), [Enter(0)], Frame(1), [CoreVote(OwnVote(Precommit))], OwnCommit());
  }

  lemma NothingKnown()
    ensures Run(Solo(), [Enter(0)]).origin == map[]
  {
    RunStep(Solo(), [], Enter(0));
    assert [] + [Enter(0)] == [Enter(0)];
  }

  // ---- a proof that is out of date

  /** Two heights after its last commit, the node has not kept the proof in between. */
  function StaleRun(): seq<Input> { CommitRun() + [Enter(2)] + [Feeds(3, 9)] }

  function LaterPeerRun(): seq<Input> { PeerRun() + [Enter(2)] }

  lemma StaleReached()
    ensures OwnVotes(Solo(), StaleRun())
    ensures var s := Run(Solo(), StaleRun());
            && s.height == 3 && Block(9) in s.origin && s.proof == Run(Solo(), CommitRun()).proof
  {
    hide Run, CommitsThenStays, Statuses, Solo, CommitRun, Alone;
    CommitRunStays();
    Entering(CommitRun(), 2);
    Feeding(CommitRun() + [Enter(2)], 3, 9);
  }

  lemma LaterPeerReached()
    ensures OwnVotes(Solo(), LaterPeerRun()) && Run(Solo(), LaterPeerRun()).height == 3
  {
    hide Run, Statuses, Solo;
    assert [] + [Enter(0)] == [Enter(0)] && [Enter(0)] + [Enter(1)] == PeerRun();
    Beginning(Solo());
    Entering([], 0);
    Entering([Enter(0)], 1);
    Entering(PeerRun(), 2);
  }

  /** It proposes all the same, with the proof of two heights ago, and its peer turns the
      proposal away. */
  lemma StaleProposalHappens()
    ensures var s, there, p := Run(Solo(), StaleRun()), Run(Solo(), LaterPeerRun()), OwnProposal(3, 9);
            && OwnVotes(Solo(), StaleRun()) && OwnVotes(Solo(), LaterPeerRun())
            && s.height == there.height == 3 && !KeepsPrevious(s) && Proposes(Solo(), s, p)
            && ReceiveProposal(Solo(), there, HandleProposal(Solo(), s, p).1.value).1.Failure?
  {
    StaleReached();
    LaterPeerReached();
    TinyCommitProof();
    SoloLaws();
    RunSound(Solo(), StaleRun());
    RunSound(Solo(), LaterPeerRun());
    hide Run, Inv, StaleRun, LaterPeerRun, CommitRun, Solo, Env.SignsForItself, Understands, SameCrypto, Proposes,
         HandleProposal, ReceiveProposal;
    var s, there := Run(Solo(), StaleRun()), Run(Solo(), LaterPeerRun());
    ProposalFits(s, 3, 9);
    ProposalIsFor(Solo(), s, OwnProposal(3, 9));
    StaleProposalRefused(Solo(), Solo(), s, there, OwnProposal(3, 9));
  }

  lemma ProposalIsFor(env: Env, s: State, p: BftProposal)
    requires Proposes(env, s, p)
    ensures p.height == s.height
  {
    ProposalOf(env, s, p);
  }

  // ---- cached messages that are left behind

  /** A vote of the node's own for height 2, as a peer would send it on. */
  function EarlyVote(): SignedVote { SignedVote(Vote(Prevote, 2, 0, Block(7), ADDRESS), ADDRESS) }

  /** At height 1 a proposal and a vote for height 2 arrive. */
  function EarlyRun(): seq<Input> {
    [Enter(0)] + [PeerProposal(Frame(2))] + [PeerVote(Code(Codec.SignedVoteItem(EarlyVote())))]
  }

  lemma EarlyVoteDecodes()
    ensures VoteIn(Solo(), PeerVote(Code(Codec.SignedVoteItem(EarlyVote())))) == Some(EarlyVote())
  {
    hide Codec.DecodeSignedVote, Codec.SignedVoteItem, Code, Uncode;
    UncodeCode(Codec.SignedVoteItem(EarlyVote()));
    Codec.SignedVoteRoundTrip(EarlyVote());
  }

  lemma FrameWaits(env: Env, before: seq<Input>, bytes: Bytes, k: u64)
    requires ProposalJoins(env, Run(env, before), PeerProposal(bytes), k)
    ensures var s, s' := Run(env, before), Run(env, before + [PeerProposal(bytes)]);
            CachedProposals(s', k) != [] && s'.voteCache == s.voteCache && s'.height == s.height
  {
    hide Run, ReceiveProposal, DecodeProposalMessage, CachedProposals;
    RunStep(env, before, PeerProposal(bytes));
    ProposalMoves(env, Run(env, before), bytes);
  }

  lemma VoteWaits(env: Env, before: seq<Input>, bytes: Bytes, k: u64)
    requires VoteJoins(env, Run(env, before), PeerVote(bytes), k)
    ensures var s, s' := Run(env, before), Run(env, before + [PeerVote(bytes)]);
            && CachedVotes(s', k) == CachedVotes(s, k) + [VoteIn(env, PeerVote(bytes)).value]
            && s'.proposalCache == s.proposalCache && s'.height == s.height
  {
    hide Run, ReceiveVote, VoteIn, CachedVotes, Keepable;
    RunStep(env, before, PeerVote(bytes));
    VoteMoves(env, Run(env, before), bytes);
  }

  /** The core has been handed neither a vote nor a proposal meanwhile. */
  ghost predicate SentNoMessages(before: seq<Event>, after: seq<Event>) {
    && before <= after
    && forall n | |before| <= n < |after| :: !after[n].input.ToVote? && !after[n].input.ToProposal?
  }

  lemma EnteredSends(env: Env, s: State, rs: Status)
    requires HandleRichStatus(env, s, rs).1.Success?
    ensures SentNoMessages(s.trace, Entered(env, s, rs).trace)
  {
    hide AddressSet;
  }

  /** A height entered with a proposal waiting for it: nothing is let out, ever. */
  lemma StayBehind(env: Env, before: seq<Input>, rs: Status, later: seq<Input>)
    requires env.SignsForItself() && OwnVotes(env, before + [NewStatus(rs)] + later)
    requires HandleRichStatus(env, Run(env, before), rs).1.Success?
    requires rs.height + 1 in Run(env, before).proposalCache
    ensures var s, s', k := Run(env, before), Run(env, before + [NewStatus(rs)]), rs.height + 1;
            && Process(env, s, NewStatus(rs)).1.Failure? && s'.height == k
            && SentNoMessages(s.trace, s'.trace)
            && CachedVotes(s', k) == CachedVotes(s, k) == CachedVotes(Run(env, before + [NewStatus(rs)] + later), k)
  {
    var all, s, k := before + [NewStatus(rs)] + later, Run(env, before), rs.height + 1;
    assert OwnVotes(env, before) by { assert forall n | 0 <= n < |before| :: all[n] == before[n]; }
    RunSound(env, before);
    hide Run, Inv, Env.SignsForItself, HandleRichStatus, ReceiveStatus, FirstRefused, VoteEvents, Refused, OwnVotes;
    RunStep(env, before, NewStatus(rs));
    StatusHeight(env, s, rs);
    StatusDelivers(env, s, rs);
    EnteredSends(env, s, rs);
    LeftBehind(env, before + [NewStatus(rs)], later, k);
  }

  lemma FirstFrameWaits()
    ensures var s := Run(Solo(), [Enter(0)] + [PeerProposal(Frame(2))]);
            s.height == 1 && CachedProposals(s, 2) != [] && s.voteCache == map[]
  {
    hide Run, Statuses, Frame, DecodeProposalMessage, Solo;
    assert [] + [Enter(0)] == [Enter(0)];
    Beginning(Solo());
    FrameDecodes(2);
    SoloLogs();
    Entering([], 0);
    FrameWaits(Solo(), [Enter(0)], Frame(2), 2);
  }

  lemma SoloLogs()
    ensures forall r :: Solo().logs(r)
  {
  }

  lemma EarlyVoteSigned()
    ensures Solo().Authentic(EarlyVote())
  {
  }

  lemma BothWait()
    ensures OwnVotes(Solo(), EarlyRun())
    ensures var s := Run(Solo(), EarlyRun());
            s.height == 1 && 2 in s.proposalCache && CachedVotes(s, 2) == [EarlyVote()]
  {
    hide Run, Frame, Solo, VoteIn, Env.Authentic, Code;
    FirstFrameWaits();
    EarlyVoteDecodes();
    SoloLogs();
    EarlyVoteSigned();
    VoteWaits(Solo(), [Enter(0)] + [PeerProposal(Frame(2))], Code(Codec.SignedVoteItem(EarlyVote())), 2);
    assert [] + [EarlyVote()] == [EarlyVote()];
  }

  /** Entering height 2 then fails and sends the core nothing that was cached, and the
      vote stays in the cache whatever follows. */
  lemma LeftBehindHappens(later: seq<Input>)
    requires OwnVotes(Solo(), EarlyRun() + [Enter(1)] + later)
    ensures var s, s' := Run(Solo(), EarlyRun()), Run(Solo(), EarlyRun() + [Enter(1)]);
            && Process(Solo(), s, Enter(1)).1.Failure? && s'.height == 2
            && SentNoMessages(s.trace, s'.trace)
            && CachedVotes(s', 2) == [EarlyVote()]
            && CachedVotes(Run(Solo(), EarlyRun() + [Enter(1)] + later), 2) == [EarlyVote()]
  {
    hide Run, EarlyRun, Env.SignsForItself, Understands, HandleRichStatus, Entered, Solo, OwnVotes, Process,
         CachedVotes, SentNoMessages;
    BothWait();
    SoloLaws();
    StatusAccepted(Run(Solo(), EarlyRun()));
    StayBehind(Solo(), EarlyRun(), NextStatus(), later);
  }
}
