/** The whole answer to every message: what the core is handed for it, in which order,
    and whether the handler succeeds. */
module Outcomes {
  import opened Prelude
  import opened Types
  import opened Env
  import opened Collection
  import opened Authority
  import opened Proofs
  import opened Engine
  import opened Safety
  import opened History
  import opened Delivery
  import opened Acceptance
  import opened Waiting
  import Codec

  // ---- what the core's messages say

  ghost predicate SameVote(b: BftVote, v: Vote) {
    && b.voteType == v.voteType && b.height == v.height && b.round == v.round
    && b.proposal == v.proposal && b.voter == v.voter
  }

  ghost predicate SameProposal(b: BftProposal, p: Proposal) {
    && b.height == p.height && b.round == p.round && b.content == p.hash && b.proposer == p.proposer
    && b.lockRound == p.lockRound
    && (p.lockRound.None? ==> b.lockVotes == [])
    && (p.lockRound.Some? ==>
          && |b.lockVotes| == |p.lockVotes|
          && forall i | 0 <= i < |p.lockVotes| :: SameVote(b.lockVotes[i], p.lockVotes[i].vote))
  }

  ghost predicate SameStatus(b: BftStatus, rs: Status) {
    && b.height == rs.height && b.interval == rs.interval && |b.authorityList| == |rs.authorityList|
    && forall i | 0 <= i < |rs.authorityList| :: b.authorityList[i] == rs.authorityList[i].address
  }

  /** Votes, proposals and statuses say field by field what their wire messages say. */
  ghost predicate SaysTheSame(e: Event) {
    match e.input
    case ToVote(v) => e.wire.ByVote? && SameVote(v, e.wire.sv.vote)
    case ToProposal(p) => e.wire.ByProposal? && SameProposal(p, e.wire.sp.proposal)
    case ToStatus(st) => e.wire.ByStatus? && SameStatus(st, e.wire.rs)
    case _ => true
  }

  lemma VoteFields(v: Vote)
    ensures SameVote(ToBftVote(v), v)
  {
  }

  lemma ProposalFields(p: Proposal)
    ensures SameProposal(ToBftProposal(p, p.hash), p)
  {
  }

  lemma StatusFields(rs: Status)
    ensures SameStatus(ToBftStatus(rs), rs)
  {
  }

  lemma SoundSaysTheSame(env: Env, e: Event)
    requires EventSound(env, e)
    ensures SaysTheSame(e)
  {
    hide ToBftVote, ToBftProposal, ToBftStatus, LockAccepted, SameVote, SameProposal, SameStatus, Env.Authentic,
         Env.AuthenticProposal, ProofVerified, ProposerCheck;
    match e.wire {
      case ByVote(sv) => VoteFields(sv.vote);
      case ByProposal(sp) => ProposalFields(sp.proposal);
      case ByStatus(rs) => StatusFields(rs);
      case NoWire =>
    }
  }

  /** In every run, whatever the core was handed says field by field what the wire
      message behind it said. */
  lemma RunSaysTheSame(env: Env, inputs: seq<Input>)
    requires env.SignsForItself() && OwnVotes(env, inputs)
    ensures forall e | e in Run(env, inputs).trace :: SaysTheSame(e)
  {
    RunSound(env, inputs);
    hide Run, EventSound, SaysTheSame, StoreSound, VoteCacheSound, ProposalCacheSound;
    forall e | e in Run(env, inputs).trace ensures SaysTheSame(e) { SoundSaysTheSame(env, e); }
  }

  // ---- what each message has the core handed

  function VoteHanded(s: State, sv: SignedVote): seq<Event> {
    [Event(ToVote(ToBftVote(sv.vote)), s.height, s.authority, ByVote(sv))]
  }

  /** A proposal, and with it the verdict that is known: a block of the previous height
      has passed, one of this height as it was judged. */
  function ProposalHanded(s: State, sp: SignedProposal): seq<Event> {
    var p := sp.proposal;
    [Event(ToProposal(ToBftProposal(p, p.hash)), s.height, s.authority, ByProposal(sp))] +
    if p.height + 1 == s.height then [Event(ToVerifyResp(VerifyResp(true, p.hash)), s.height, s.authority, NoWire)]
    else if p.hash in s.verified then
      [Event(ToVerifyResp(VerifyResp(s.verified[p.hash], p.hash)), s.height, s.authority, NoWire)]
    else []
  }

  predicate Accepts(env: Env, s: State, rs: Status) {
    rs.height >= s.height && env.logs(LogStatus(rs)) && rs.height + 1 < U64_BOUND
  }

  function Successor(s: State, rs: Status): Authority {
    Authority(rs.authorityList, AddressSet(rs.authorityList), s.authority.list, s.authority.addresses, s.height)
  }

  /** A start or pause where the node joins or leaves the list, then the status. */
  function Opening(env: Env, s: State, rs: Status): seq<Event>
    requires rs.height + 1 < U64_BOUND
  {
    var at, under, member := rs.height + 1, Successor(s, rs), env.address in AddressSet(rs.authorityList);
    (if member && !s.power then [Event(ToStart, at, under, NoWire)]
     else if !member && s.power then [Event(ToPause, at, under, NoWire)] else []) +
    [Event(ToStatus(ToBftStatus(rs)), at, under, ByStatus(rs))]
  }

  /** Then the cached votes up to the first refused one, if no proposal is cached. */
  function StatusHanded(env: Env, s: State, rs: Status): seq<Event>
    requires rs.height + 1 < U64_BOUND
  {
    var at, under := rs.height + 1, Successor(s, rs);
    var votes := CachedVotes(s, at);
    Opening(env, s, rs) +
    if at in s.proposalCache then [] else VoteEvents(under, at, votes[..FirstRefused(env, under, at, votes)])
  }

  predicate NoneRefused(env: Env, under: Authority, at: u64, votes: seq<SignedVote>) {
    forall sv | sv in votes :: !Refused(env, under, at, sv)
  }

  /** A status succeeds where nothing cached is turned away. */
  predicate StatusSucceeds(env: Env, s: State, rs: Status) {
    && Accepts(env, s, rs) && rs.height + 1 !in s.proposalCache
    && NoneRefused(env, Successor(s, rs), rs.height + 1, CachedVotes(s, rs.height + 1))
  }

  /** A frame that decodes, is not kept for later, and whose proposal can be passed on
      now that its block is known. */
  ghost predicate FrameDeliverable(env: Env, s: State, bytes: Bytes) {
    var decoded := DecodeProposalMessage(env, bytes);
    && decoded.Success?
    && var (sp, block, hash) := decoded.value;
    && !(s.height < sp.proposal.height < s.height + 16)
    && ProposalDeliverable(env, s.(origin := OrInsert(s.origin, hash, block)), sp)
  }

  ghost predicate FrameKept(env: Env, s: State, bytes: Bytes) {
    var decoded := DecodeProposalMessage(env, bytes);
    && decoded.Success?
    && s.height < decoded.value.0.proposal.height < s.height + 16 && env.logs(LogBytes(bytes))
  }

  ghost function Handed(env: Env, s: State, i: Input): seq<Event> {
    match i
    case PeerVote(_) =>
      var brought := VoteIn(env, i);
      if brought.Some? && Deliverable(env, s, brought.value) then VoteHanded(s, brought.value) else []
    case PeerProposal(bytes) =>
      if FrameDeliverable(env, s, bytes) then ProposalHanded(s, DecodeProposalMessage(env, bytes).value.0) else []
    case NewStatus(rs) => if Accepts(env, s, rs) then StatusHanded(env, s, rs) else []
    case Committed(c, answer) =>
      if Committable(env, s, c) && answer.Some? && Accepts(env, s, answer.value)
      then StatusHanded(env, s, answer.value) else []
    case Verified(vr) => [Event(ToVerifyResp(VerifyResp(vr.isPass, vr.proposal)), s.height, s.authority, NoWire)]
    case Fed(f) => [Event(ToFeed(BftFeed(f.height, env.contentHash(f.content))), s.height, s.authority, NoWire)]
    case _ => []
  }

  ghost predicate Succeeds(env: Env, s: State, i: Input) {
    match i
    case PeerVote(_) => VoteIn(env, i).Some? && Deliverable(env, s, VoteIn(env, i).value)
    case PeerProposal(bytes) => FrameKept(env, s, bytes) || FrameDeliverable(env, s, bytes)
    case NewStatus(rs) => StatusSucceeds(env, s, rs)
    case CoreProposal(p) => Sendable(env, s, p)
    case CoreVote(v) =>
      v.height >= s.height && env.logs(LogVote(v)) && env.sign(env.VoteDigest(FromBftVote(v, v.voteType))).Some?
    case Committed(c, answer) => Committable(env, s, c) && answer.Some? && StatusSucceeds(env, s, answer.value)
    case ProposalRequest(_) => true
    case Verified(vr) => env.logs(LogVerifyResp(vr))
    case Fed(f) => env.logs(LogFeed(f))
  }

  // ---- own proposals

  /** The stored prevotes of the proposal's round hold all votes it asks for. */
  ghost predicate LockVotesStored(s: State, p: BftProposal) {
    p.lockRound.None? ||
    (&& Peek(s.votes, p.height, p.round, Prevote).Some?
     && forall v | v in p.lockVotes :: v in Slot(s.votes, p.height, p.round, Prevote))
  }

  function StoredFor(stored: VoteSet, votes: seq<BftVote>): (found: seq<SignedVote>)
    requires forall v | v in votes :: v in stored
    ensures |found| == |votes| && forall i | 0 <= i < |votes| :: found[i] == stored[votes[i]]
  {
    seq(|votes|, i requires 0 <= i < |votes| => stored[votes[i]])
  }

  /** The proposal that a node makes of its core's: at height 1 with an empty proof for
      its own block, above with the kept one, and with the stored votes for a lock. */
  ghost function OwnProposal(s: State, p: BftProposal): Proposal
    requires LockVotesStored(s, p) && (s.height == 1 || s.proof.Some?)
  {
    Proposal(p.height, p.round, p.content,
             if s.height == 1 then Proof(p.content, 0, 0, map[]) else s.proof.value,
             p.lockRound,
             if p.lockRound.None? then [] else StoredFor(Slot(s.votes, p.height, p.round, Prevote), p.lockVotes),
             p.proposer)
  }

  ghost predicate Sendable(env: Env, s: State, p: BftProposal) {
    && p.height == s.height && env.logs(LogProposal(p))
    && (s.height == 1 || s.proof.Some?)
    && LockVotesStored(s, p)
    && env.sign(env.ProposalDigest(OwnProposal(s, p))).Some?
    && p.content in s.origin && env.encode(s.origin[p.content]).Some?
  }

  ghost predicate Committable(env: Env, s: State, c: BftCommit) {
    && c.height >= s.height && env.logs(LogCommit(c)) && c.proposal in s.origin
    && Peek(s.votes, c.height, c.round, Precommit).Some?
    && forall v | v in c.lockVotes :: v in Slot(s.votes, c.height, c.round, Precommit)
  }

  lemma {:induction false} LookedUpAre(stored: VoteSet, votes: seq<BftVote>)
    requires forall v | v in votes :: v in stored
    ensures LookUpVotes(stored, votes) == Success(StoredFor(stored, votes))
  {
    if votes != [] {
      LookedUpAre(stored, votes[1..]);
      assert StoredFor(stored, votes) == [stored[votes[0]]] + StoredFor(stored, votes[1..]);
    } else {
      assert StoredFor(stored, votes) == [];
    }
  }

  lemma FoundVotesAre(env: Env, s: State, p: BftProposal)
    requires Inv(env, s)
    ensures FindLockVotes(s, p).1.Success? <==> LockVotesStored(s, p)
    ensures LockVotesStored(s, p) ==>
              FindLockVotes(s, p).1.value ==
                if p.lockRound.None? then [] else StoredFor(Slot(s.votes, p.height, p.round, Prevote), p.lockVotes)
  {
    hide StoreGet, LookUpVotes, Peek;
    if p.lockRound.Some? {
      GetReads(s.votes, p.height, p.round, Prevote);
      LockVotesFoundIff(env, s, p);
      if LockVotesStored(s, p) { LookedUpAre(Slot(s.votes, p.height, p.round, Prevote), p.lockVotes); }
    }
  }

  lemma BuiltIs(env: Env, s: State, p: BftProposal)
    requires Inv(env, s)
    ensures var built := BuildSignedProposal(env, s, p).1;
            && (built.Success? <==> && (s.height == 1 || s.proof.Some?) && LockVotesStored(s, p)
                                    && env.sign(env.ProposalDigest(OwnProposal(s, p))).Some?)
            && (built.Success? ==> && built.value.proposal == OwnProposal(s, p)
                                   && env.sign(env.ProposalDigest(OwnProposal(s, p))) == Some(built.value.signature))
  {
    FoundVotesAre(env, s, p);
    hide FindLockVotes, LockVotesStored, Inv;
  }

  /** The core's proposal goes out exactly when it is for the present height, loggable,
      a proof is kept or the height is 1, its lock votes are stored for its round, it can
      be signed, and its block is known and encodable; what goes out is the one
      proposal that this leaves. */
  lemma ProposalSentIff(env: Env, s: State, p: BftProposal)
    requires Inv(env, s)
    ensures HandleProposal(env, s, p).1.Success? <==> Sendable(env, s, p)
    ensures Sendable(env, s, p) ==>
              && BuildSignedProposal(env, s, p).1.Success?
              && BuildSignedProposal(env, s, p).1.value.proposal == OwnProposal(s, p)
  {
    BuiltIs(env, s, p);
    hide BuildSignedProposal, LockVotesStored, OwnProposal, Inv, ProposalsAdd;
  }

  // ---- the answers

  lemma VoteOutcome(env: Env, s: State, bytes: Bytes)
    requires Inv(env, s)
    ensures var (s', r) := ReceiveVote(env, s, bytes);
            && s'.trace == s.trace + Handed(env, s, PeerVote(bytes))
            && (r.Success? <==> Succeeds(env, s, PeerVote(bytes)))
  {
    var brought := VoteIn(env, PeerVote(bytes));
    if brought.Some? { VoteAcceptedIff(env, s, brought.value); }
    hide HandleSignedVote, Deliverable, Codec.DecodeSignedVote, Inv;
  }

  /** What forwarding a proposal hands to the core, verdict included. */
  lemma ForwardOutcome(env: Env, s: State, sp: SignedProposal)
    requires Inv(env, s)
    ensures var (s', r) := ForwardProposal(env, s, sp);
            && s'.trace == s.trace + (if ProposalDeliverable(env, s, sp) then ProposalHanded(s, sp) else [])
            && (r.Success? <==> ProposalDeliverable(env, s, sp))
  {
    hide HandleSignedProposal, ProposalDeliverable, Inv, ProofKept, ToBftProposal;
    ProposalAcceptedIff(env, s, sp);
    DeliverableHeight(env, s, sp);
  }

  lemma DeliverableHeight(env: Env, s: State, sp: SignedProposal)
    ensures ProposalDeliverable(env, s, sp) ==> sp.proposal.height == s.height || sp.proposal.height + 1 == s.height
  {
  }

  lemma FrameOutcome(env: Env, s: State, bytes: Bytes)
    requires Inv(env, s)
    ensures var (s', r) := ReceiveProposal(env, s, bytes);
            && s'.trace == s.trace + Handed(env, s, PeerProposal(bytes))
            && (r.Success? <==> Succeeds(env, s, PeerProposal(bytes)))
  {
    var decoded := DecodeProposalMessage(env, bytes);
    if decoded.Success? {
      var (sp, block, hash) := decoded.value;
      var s1 := s.(origin := OrInsert(s.origin, hash, block));
      InvKnowing(env, s, hash, block);
      ForwardOutcome(env, s1, sp);
      assert ProposalHanded(s1, sp) == ProposalHanded(s, sp);
    }
    hide ForwardProposal, DecodeProposalMessage, ProposalDeliverable, Inv, ProposalHanded;
  }

  lemma InvKnowing(env: Env, s: State, hash: Hash, block: Content)
    requires Inv(env, s)
    ensures Inv(env, s.(origin := OrInsert(s.origin, hash, block)))
  {
    hide StoreSound, ProposalsValid, VoteCacheSound, ProposalCacheSound, EventSound;
  }

  lemma EnteredHanded(env: Env, s: State, rs: Status)
    requires Accepts(env, s, rs)
    ensures HandleRichStatus(env, s, rs).1.Success?
    ensures var entered := Entered(env, s, rs);
            && entered.height == rs.height + 1 && entered.authority == Successor(s, rs)
            && entered.trace == s.trace + Opening(env, s, rs)
  {
    hide AddressSet, ToBftStatus;
  }

  lemma AcceptedOutcome(env: Env, s: State, rs: Status)
    requires Inv(env, s) && Accepts(env, s, rs)
    ensures var (s', r) := ReceiveStatus(env, s, rs);
            s'.trace == s.trace + StatusHanded(env, s, rs) && (r.Success? <==> StatusSucceeds(env, s, rs))
  {
    hide ReceiveStatus, HandleRichStatus, Entered, Inv, FirstRefused, VoteEvents, CachedVotes, Successor, Opening,
         NoneRefused;
    EnteredHanded(env, s, rs);
    StatusDelivers(env, s, rs);
    var at, under, votes := rs.height + 1, Successor(s, rs), CachedVotes(s, rs.height + 1);
    RefusedOrAll(env, under, at, votes);
    var opening, drained := Opening(env, s, rs), VoteEvents(under, at, votes[..FirstRefused(env, under, at, votes)]);
    assert (s.trace + opening) + drained == s.trace + (opening + drained) && opening + [] == opening;
  }

  lemma StatusOutcome(env: Env, s: State, rs: Status)
    requires Inv(env, s)
    ensures var (s', r) := ReceiveStatus(env, s, rs);
            && s'.trace == s.trace + (if Accepts(env, s, rs) then StatusHanded(env, s, rs) else [])
            && (r.Success? <==> StatusSucceeds(env, s, rs))
  {
    if Accepts(env, s, rs) { AcceptedOutcome(env, s, rs); } else { NotAccepted(env, s, rs); }
    hide ReceiveStatus, Inv, StatusHanded;
  }

  lemma NotAccepted(env: Env, s: State, rs: Status)
    requires !Accepts(env, s, rs)
    ensures ReceiveStatus(env, s, rs).0.trace == s.trace && ReceiveStatus(env, s, rs).1.Failure?
  {
  }

  lemma RefusedOrAll(env: Env, under: Authority, at: u64, votes: seq<SignedVote>)
    ensures FirstRefused(env, under, at, votes) == |votes| <==> NoneRefused(env, under, at, votes)
  {
    hide Refused;
    var n := FirstRefused(env, under, at, votes);
    if n < |votes| { assert votes[n] in votes; }
  }

  lemma CommitOutcome(env: Env, s: State, c: BftCommit, answer: Option<Status>)
    requires Inv(env, s)
    ensures var (s', r) := CoreCommit(env, s, c, answer);
            && s'.trace == s.trace + Handed(env, s, Committed(c, answer))
            && (r.Success? <==> Succeeds(env, s, Committed(c, answer)))
  {
    CommitSucceedsIff(env, s, c);
    HandleCommitSound(env, s, c);
    var s1 := HandleCommit(env, s, c).0;
    if answer.Some? {
      StatusOutcome(env, s1, answer.value);
      SameForStatus(env, s, s1, answer.value);
    }
    hide HandleCommit, ReceiveStatus, Inv, StatusHanded, StatusSucceeds, Peek;
  }

  /** A commit changes nothing that the answer to its status depends on. */
  lemma SameForStatus(env: Env, s: State, s1: State, rs: Status)
    requires s1 == s.(votes := s1.votes, proof := s1.proof)
    ensures Accepts(env, s1, rs) == Accepts(env, s, rs) && StatusSucceeds(env, s1, rs) == StatusSucceeds(env, s, rs)
    ensures Accepts(env, s, rs) ==> StatusHanded(env, s1, rs) == StatusHanded(env, s, rs)
  {
  }

  /** What goes out for a vote of the core says the same, signed by this node. */
  lemma OwnVoteOutcome(env: Env, s: State, v: BftVote)
    ensures HandleVote(env, s, v).0.trace == s.trace
    ensures HandleVote(env, s, v).1.Success? <==> Succeeds(env, s, CoreVote(v))
    ensures var r := HandleVote(env, s, v).1;
            r.Success? ==>
              && SameVote(v, r.value.vote)
              && env.sign(env.VoteDigest(r.value.vote)) == Some(r.value.signature)
              && (env.SignsForItself() && v.voter == env.address ==> env.Authentic(r.value))
  {
    hide StoreAdd;
  }

  /** The whole answer to a message. */
  lemma Outcome(env: Env, s: State, i: Input)
    requires Inv(env, s)
    ensures Process(env, s, i).0.trace == s.trace + Handed(env, s, i)
    ensures Process(env, s, i).1.Success? <==> Succeeds(env, s, i)
  {
    match i {
      case PeerProposal(bytes) => FrameOutcome(env, s, bytes);
      case PeerVote(bytes) => VoteOutcome(env, s, bytes);
      case NewStatus(rs) => StatusOutcome(env, s, rs);
      case CoreProposal(p) => ProposalSentIff(env, s, p);
      case CoreVote(v) => OwnVoteOutcome(env, s, v);
      case Committed(c, answer) => CommitOutcome(env, s, c, answer);
      case _ =>
    }
    hide ReceiveProposal, ReceiveVote, ReceiveStatus, HandleProposal, HandleVote, CoreCommit, Inv, StatusHanded,
         ProposalHanded, FrameDeliverable, FrameKept, StatusSucceeds, Sendable, Committable, Deliverable, VoteIn,
         HandleCommit;
  }

  ghost function AllHanded(env: Env, inputs: seq<Input>): seq<Event> {
    if inputs == [] then []
    else
      var before := inputs[..|inputs| - 1];
      AllHanded(env, before) + Handed(env, Run(env, before), inputs[|inputs| - 1])
  }

  /** In every run the core has been handed exactly what each message has it handed, in
      the order of the messages. */
  lemma {:induction false} RunHands(env: Env, inputs: seq<Input>)
    requires env.SignsForItself() && OwnVotes(env, inputs)
    ensures Run(env, inputs).trace == AllHanded(env, inputs)
  {
    if inputs != [] {
      var before, last := inputs[..|inputs| - 1], inputs[|inputs| - 1];
      RunHands(env, before);
      RunSound(env, before);
      Outcome(env, Run(env, before), last);
      assert Run(env, inputs) == Process(env, Run(env, before), last).0;
      hide Run, Process, Inv, Handed, Env.SignsForItself;
    }
  }
}
