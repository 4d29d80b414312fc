/** Run-level control: heights, authority generations and start/pause switching
    as the history of accepted statuses determines them. */
module History {
  import opened Prelude
  import opened Types
  import opened Env
  import opened Authority
  import opened Proofs
  import opened Engine
  import opened Safety

  // ---- what a trace says

  /** The statuses accepted so far, oldest first. */
  function Statuses(trace: seq<Event>): seq<Status> {
    if trace == [] then []
    else
      var last := trace[|trace| - 1];
      Statuses(trace[..|trace| - 1]) + if last.input.ToStatus? && last.wire.ByStatus? then [last.wire.rs] else []
  }

  function HeightAfter(hs: seq<Status>): nat {
    if hs == [] then 0 else hs[|hs| - 1].height + 1
  }

  function AuthorityAfter(hs: seq<Status>): Authority {
    if hs == [] then NoAuthority()
    else
      var before, last := hs[..|hs| - 1], hs[|hs| - 1];
      var reached := HeightAfter(before);
      AuthorityAfter(before).Updated(if reached < U64_BOUND then reached else 0, last.authorityList)
  }

  /** Start and pause as a two-state switch: `None` once a start is sent while
      running or a pause while paused. */
  function Switched(trace: seq<Event>): Option<bool> {
    if trace == [] then Some(false)
    else
      var before, last := Switched(trace[..|trace| - 1]), trace[|trace| - 1].input;
      if last.ToStart? then (if before == Some(false) then Some(true) else None)
      else if last.ToPause? then (if before == Some(true) then Some(false) else None)
      else before
  }

  predicate Quiet(input: CoreInput) { !input.ToStatus? && !input.ToStart? && !input.ToPause? }

  /** Every vote, proposal, feed or answer is stamped with the height and the
      authority that the statuses before it determine. */
  ghost predicate Placed(trace: seq<Event>) {
    forall i | 0 <= i < |trace| && Quiet(trace[i].input) ::
      && trace[i].at == HeightAfter(Statuses(trace[..i]))
      && trace[i].under == AuthorityAfter(Statuses(trace[..i]))
  }

  /** Each accepted status is at or above the height its predecessor led to. */
  predicate Increasing(hs: seq<Status>) {
    hs == [] || (Increasing(hs[..|hs| - 1]) && HeightAfter(hs[..|hs| - 1]) <= hs[|hs| - 1].height)
  }

  ghost predicate Tracked(env: Env, s: State) {
    var hs := Statuses(s.trace);
    && s.height == HeightAfter(hs) && s.authority == AuthorityAfter(hs)
    && Increasing(hs)
    && Placed(s.trace)
    && Switched(s.trace) == Some(s.power)
    && s.power == (env.address in AddressSet(s.authority.list))
  }

  // ---- steps that leave height, authority and power alone

  ghost predicate Calm(env: Env, s: State, s': State) {
    && s'.height == s.height && s'.authority == s.authority && s'.power == s.power
    && (Tracked(env, s) ==> Tracked(env, s'))
  }

  lemma SendTracked(env: Env, s: State, input: CoreInput, wire: Wire)
    requires Quiet(input)
    ensures Calm(env, s, Send(s, input, wire))
  {
    if Tracked(env, s) {
      var trace, before := Send(s, input, wire).trace, s.trace;
      TraceStep(before, Event(input, s.height, s.authority, wire));
      assert Statuses(trace) == Statuses(before);
      hide Statuses, Switched, AuthorityAfter, HeightAfter;
      forall i | 0 <= i < |trace| && Quiet(trace[i].input)
        ensures trace[i].at == HeightAfter(Statuses(trace[..i]))
        ensures trace[i].under == AuthorityAfter(Statuses(trace[..i]))
      {
        if i < |before| { assert trace[..i] == before[..i]; } else { assert trace[..i] == before; }
      }
    }
  }

  lemma SameTrace(env: Env, s: State, s': State)
    requires s'.trace == s.trace && s'.height == s.height && s'.authority == s.authority && s'.power == s.power
    ensures Calm(env, s, s')
  {
  }

  lemma ForwardVoteCalm(env: Env, s: State, sv: SignedVote)
    ensures Calm(env, s, ForwardVote(env, s, sv).0)
  {
    hide HandleSignedVote, Tracked;
    var (s', r) := HandleSignedVote(env, s, sv);
    SameTrace(env, s, s');
    if r.Success? { SendTracked(env, s', ToVote(r.value), ByVote(sv)); }
  }

  lemma {:induction false} DrainVotesCalm(env: Env, s: State, votes: seq<SignedVote>)
    ensures Calm(env, s, DrainVotes(env, s, votes).0)
    decreases |votes|
  {
    if votes != [] {
      hide ForwardVote, Tracked;
      ForwardVoteCalm(env, s, votes[0]);
      if ForwardVote(env, s, votes[0]).1.Success? { DrainVotesCalm(env, ForwardVote(env, s, votes[0]).0, votes[1..]); }
    }
  }

  lemma ForwardProposalCalm(env: Env, s: State, sp: SignedProposal)
    ensures Calm(env, s, ForwardProposal(env, s, sp).0)
  {
    hide HandleSignedProposal, Tracked;
    var (s', r) := HandleSignedProposal(env, s, sp);
    SameTrace(env, s, s');
    if r.Success? {
      SendTracked(env, s', ToProposal(r.value.0), ByProposal(sp));
      var sent := Send(s', ToProposal(r.value.0), ByProposal(sp));
      if r.value.1.Some? { SendTracked(env, sent, ToVerifyResp(r.value.1.value), NoWire); }
    }
  }

  lemma {:induction false} DrainProposalsCalm(env: Env, s: State, cached: seq<Cached>)
    ensures Calm(env, s, DrainProposals(env, s, cached).0)
    decreases |cached|
  {
    if cached != [] {
      hide ForwardProposal, Tracked;
      ForwardProposalCalm(env, s, cached[0].signed);
      var (s', r) := ForwardProposal(env, s, cached[0].signed);
      if r.Success? { DrainProposalsCalm(env, s', cached[1..]); }
    }
  }

  lemma CachesCalm(env: Env, s: State, height: u64)
    ensures Calm(env, s, SendCacheProposal(env, s, height).0)
    ensures Calm(env, s, SendCacheVote(env, s, height).0)
  {
    hide DrainProposals, DrainVotes, Tracked;
    if height in s.proposalCache {
      var s1 := s.(proposalCache := s.proposalCache - {height});
      SameTrace(env, s, s1);
      DrainProposalsCalm(env, s1, s.proposalCache[height]);
    }
    if height in s.voteCache {
      var s1 := s.(voteCache := s.voteCache - {height});
      SameTrace(env, s, s1);
      DrainVotesCalm(env, s1, s.voteCache[height]);
    }
  }

  lemma ReceiveProposalCalm(env: Env, s: State, bytes: Bytes)
    ensures Calm(env, s, ReceiveProposal(env, s, bytes).0)
  {
    hide ForwardProposal, DecodeProposalMessage, Tracked, Push;
    var decoded := DecodeProposalMessage(env, bytes);
    if decoded.Success? {
      var (sp, block, hash) := decoded.value;
      var s1 := s.(origin := OrInsert(s.origin, hash, block));
      SameTrace(env, s, s1);
      ForwardProposalCalm(env, s1, sp);
      SameTrace(env, s, s1.(proposalCache := Push(s1.proposalCache, sp.proposal.height, Cached(sp, block, bytes))));
    } else {
      SameTrace(env, s, s);
    }
  }

  lemma ReceiveVoteCalm(env: Env, s: State, bytes: Bytes)
    ensures Calm(env, s, ReceiveVote(env, s, bytes).0)
  {
    hide ForwardVote, Tracked;
    SameTrace(env, s, s);
    forall sv { ForwardVoteCalm(env, s, sv); }
  }

  // ---- the status step

  /** The switch and the status itself, up to the draining of the caches. */
  function Entered(env: Env, s: State, rs: Status): State
    requires HandleRichStatus(env, s, rs).1.Success?
  {
    var s1 := HandleRichStatus(env, s, rs).0;
    Send(SwitchPower(env, s1, env.address in AddressSet(rs.authorityList)), ToStatus(ToBftStatus(rs)), ByStatus(rs))
  }

  /** How an event moves what the trace says. */
  lemma TraceStep(trace: seq<Event>, e: Event)
    ensures Statuses(trace + [e]) == Statuses(trace) + if e.input.ToStatus? && e.wire.ByStatus? then [e.wire.rs] else []
    ensures Switched(trace + [e]) ==
            if e.input.ToStart? then (if Switched(trace) == Some(false) then Some(true) else None)
            else if e.input.ToPause? then (if Switched(trace) == Some(true) then Some(false) else None)
            else Switched(trace)
    ensures Placed(trace) && !Quiet(e.input) ==> Placed(trace + [e])
  {
    var all := trace + [e];
    assert all[..|trace|] == trace;
    if Placed(trace) && !Quiet(e.input) {
      hide Statuses, Switched;
      forall i | 0 <= i < |all| && Quiet(all[i].input)
        ensures all[i].at == HeightAfter(Statuses(all[..i])) && all[i].under == AuthorityAfter(Statuses(all[..i]))
      {
        assert all[i] == trace[i] && all[..i] == trace[..i];
      }
    }
  }

  lemma StatusStep(hs: seq<Status>, rs: Status)
    requires HeightAfter(hs) < U64_BOUND
    ensures HeightAfter(hs + [rs]) == rs.height + 1
    ensures AuthorityAfter(hs + [rs]) == AuthorityAfter(hs).Updated(HeightAfter(hs), rs.authorityList)
    ensures Increasing(hs) && HeightAfter(hs) <= rs.height ==> Increasing(hs + [rs])
  {
    assert (hs + [rs])[..|hs|] == hs;
  }

  lemma EnteredTracked(env: Env, s: State, rs: Status)
    requires Tracked(env, s) && HandleRichStatus(env, s, rs).1.Success?
    ensures Tracked(env, Entered(env, s, rs))
    ensures Entered(env, s, rs).height == rs.height + 1 && Entered(env, s, rs).authority.list == rs.authorityList
    ensures Entered(env, s, rs).power == (env.address in AddressSet(rs.authorityList))
  {
    hide Statuses, Switched, Placed, Increasing, AuthorityAfter, HeightAfter, AddressSet;
    var s1 := HandleRichStatus(env, s, rs).0;
    var member := env.address in AddressSet(rs.authorityList);
    var s2 := SwitchPower(env, s1, member);
    TraceStep(s1.trace, Event(if member then ToStart else ToPause, s1.height, s1.authority, NoWire));
    TraceStep(s2.trace, Event(ToStatus(ToBftStatus(rs)), s2.height, s2.authority, ByStatus(rs)));
    StatusStep(Statuses(s.trace), rs);
    assert Statuses(s2.trace) == Statuses(s.trace);
  }

  lemma ReceiveStatusTracked(env: Env, s: State, rs: Status)
    requires Tracked(env, s)
    ensures Tracked(env, ReceiveStatus(env, s, rs).0)
    ensures HandleRichStatus(env, s, rs).1.Success? ==>
              ReceiveStatus(env, s, rs).0.power == (env.address in AddressSet(rs.authorityList))
  {
    hide Tracked, SendCacheProposal, SendCacheVote, SwitchPower;
    if HandleRichStatus(env, s, rs).1.Success? {
      var s3 := Entered(env, s, rs);
      EnteredTracked(env, s, rs);
      CachesCalm(env, s3, s3.height);
      var s4 := SendCacheProposal(env, s3, s3.height).0;
      CachesCalm(env, s4, s4.height);
    }
  }

  // ---- every run

  lemma ProcessTracked(env: Env, s: State, i: Input)
    requires Tracked(env, s)
    ensures Tracked(env, Process(env, s, i).0)
  {
    hide Tracked;
    match i {
      case PeerProposal(bytes) => hide ReceiveProposal; ReceiveProposalCalm(env, s, bytes);
      case PeerVote(bytes) => hide ReceiveVote; ReceiveVoteCalm(env, s, bytes);
      case NewStatus(rs) => hide ReceiveStatus; ReceiveStatusTracked(env, s, rs);
      case CoreProposal(p) => hide HandleProposal; SameTrace(env, s, HandleProposal(env, s, p).0);
      case CoreVote(v) => hide HandleVote; SameTrace(env, s, HandleVote(env, s, v).0);
      case Committed(c, answer) =>
        hide HandleCommit, ReceiveStatus;
        var s1 := HandleCommit(env, s, c).0;
        SameTrace(env, s, s1);
        if answer.Some? { ReceiveStatusTracked(env, s1, answer.value); }
      case ProposalRequest(_) =>
      case Verified(vr) =>
        var s1 := Send(s, ToVerifyResp(vr), NoWire);
        SendTracked(env, s, ToVerifyResp(vr), NoWire);
        SameTrace(env, s1, ReceiveVerifyResp(env, s, vr).0);
      case Fed(f) =>
        var input := ToFeed(BftFeed(f.height, env.contentHash(f.content)));
        SendTracked(env, s, input, NoWire);
        SameTrace(env, Send(s, input, NoWire), ReceiveFeed(env, s, f).0);
    }
  }

  /** In every run the height, both authority generations and the running state
      are those the accepted statuses determine: status heights strictly increase,
      starts and pauses alternate beginning with a start, and the node is running
      exactly when it is a member of the newest list. */
  lemma {:induction false} RunTracked(env: Env, inputs: seq<Input>)
    ensures Tracked(env, Run(env, inputs))
  {
    if inputs == [] {
      assert AddressSet([]) == {};
    } else {
      hide Tracked, Process;
      var before := inputs[..|inputs| - 1];
      RunTracked(env, before);
      ProcessTracked(env, Run(env, before), inputs[|inputs| - 1]);
    }
  }

  lemma {:induction false} IncreasingStrictly(hs: seq<Status>, i: nat, j: nat)
    requires Increasing(hs) && i < j < |hs|
    ensures hs[i].height < hs[j].height
  {
    var before := hs[..|hs| - 1];
    if j < |hs| - 1 {
      assert before[i] == hs[i] && before[j] == hs[j];
      IncreasingStrictly(before, i, j);
    } else if i < |hs| - 2 {
      assert before[i] == hs[i] && before[|hs| - 2] == hs[|hs| - 2];
      IncreasingStrictly(before, i, |hs| - 2);
    }
  }

  /** Some event from position `from` up to `to` sends this input. */
  ghost predicate SentBetween(trace: seq<Event>, from: nat, to: nat, input: CoreInput)
    requires to <= |trace|
  {
    exists k :: from <= k < to && trace[k].input == input
  }

  lemma SentBefore(trace: seq<Event>, n: nat, from: nat, to: nat, input: CoreInput)
    requires to <= n <= |trace| && SentBetween(trace[..n], from, to, input)
    ensures SentBetween(trace, from, to, input)
  {
    var k :| from <= k < to && trace[..n][k].input == input;
    assert trace[k].input == input;
  }

  /** The state of the switch is that of its last start or pause. */
  lemma {:induction false} LastSwitch(trace: seq<Event>, i: nat)
    requires i <= |trace|
    ensures Switched(trace) == Some(true) ==> SentBetween(trace, 0, |trace|, ToStart)
    ensures i < |trace| && Switched(trace) == Some(false) && trace[i].input == ToStart ==>
              SentBetween(trace, i + 1, |trace|, ToPause)
    ensures i < |trace| && Switched(trace) == Some(true) && trace[i].input == ToPause ==>
              SentBetween(trace, i + 1, |trace|, ToStart)
  {
    if trace != [] {
      var n := |trace| - 1;
      var before, last := trace[..n], trace[n].input;
      LastSwitch(before, if i <= n then i else n);
      if !last.ToStart? && !last.ToPause? {
        hide Switched, SentBetween;
        assert Switched(trace) == Switched(before) by { TraceStepSame(trace); }
        if SentBetween(before, 0, n, ToStart) { SentLater(trace, n, 0, ToStart); }
        if i < n && SentBetween(before, i + 1, n, ToPause) { SentLater(trace, n, i + 1, ToPause); }
        if i < n && SentBetween(before, i + 1, n, ToStart) { SentLater(trace, n, i + 1, ToStart); }
      }
    }
  }

  lemma TraceStepSame(trace: seq<Event>)
    requires trace != [] && !trace[|trace| - 1].input.ToStart? && !trace[|trace| - 1].input.ToPause?
    ensures Switched(trace) == Switched(trace[..|trace| - 1])
  {
  }

  lemma SentLater(trace: seq<Event>, n: nat, from: nat, input: CoreInput)
    requires n <= |trace| && SentBetween(trace[..n], from, n, input)
    ensures SentBetween(trace, from, |trace|, input)
  {
    SentBefore(trace, n, from, n, input);
  }

  /** What the switch means: a start or pause is never repeated without the other
      in between, and no pause comes before a start. */
  lemma {:induction false} SwitchesAlternate(trace: seq<Event>, i: nat, j: nat)
    requires Switched(trace).Some? && i < j < |trace|
    ensures trace[j].input == ToPause ==> SentBetween(trace, 0, j, ToStart)
    ensures trace[i].input == trace[j].input == ToStart ==> SentBetween(trace, i + 1, j, ToPause)
    ensures trace[i].input == trace[j].input == ToPause ==> SentBetween(trace, i + 1, j, ToStart)
  {
    var n := |trace| - 1;
    var before := trace[..n];
    if j < n { SwitchesAlternate(before, i, j); } else { LastSwitch(before, i); }
    assert before[i] == trace[i];
    hide SentBetween, Switched;
    if SentBetween(before, 0, j, ToStart) { SentBefore(trace, n, 0, j, ToStart); }
    if SentBetween(before, i + 1, j, ToPause) { SentBefore(trace, n, i + 1, j, ToPause); }
    if SentBetween(before, i + 1, j, ToStart) { SentBefore(trace, n, i + 1, j, ToStart); }
  }

  // ---- whose authority judges what

  /** The list brought by the latest status below a height. */
  function InForce(hs: seq<Status>, height: nat): seq<Node> {
    if hs == [] then []
    else if hs[|hs| - 1].height < height then hs[|hs| - 1].authorityList
    else InForce(hs[..|hs| - 1], height)
  }

  /** Every status came exactly at the height reached. */
  predicate Consecutive(hs: seq<Status>) {
    hs == [] || (Consecutive(hs[..|hs| - 1]) && hs[|hs| - 1].height == HeightAfter(hs[..|hs| - 1]))
  }

  /** At height H the current list is the one in force at H and the old list the
      one in force at H - 1; messages for H - 1 are judged by the list in force
      there exactly when the last status was consecutive or changed nothing. */
  lemma TwoGenerations(hs: seq<Status>)
    requires hs != [] && Increasing(hs) && HeightAfter(hs) < U64_BOUND
    ensures var a, h, before := AuthorityAfter(hs), HeightAfter(hs), hs[..|hs| - 1];
            && a.ListFor(h) == a.list == InForce(hs, h)
            && a.oldList == InForce(hs, h - 1)
            && (a.oldHeight == h - 1 <==> hs[|hs| - 1].height == HeightAfter(before))
            && (a.ListFor(h - 1) == InForce(hs, h - 1)
                <==> hs[|hs| - 1].height == HeightAfter(before) || a.list == InForce(hs, h - 1))
            && a.Consistent()
  {
    var before := hs[..|hs| - 1];
    AuthorityAfterConsistent(before);
  }

  /** After a jump, messages for the height just below are judged by a list that
      was not yet in force there. */
  lemma JumpMisjudges(a: seq<Node>, b: seq<Node>)
    requires a != b
    ensures var hs := [Status(0, None, a), Status(5, None, b)];
            && Increasing(hs) && HeightAfter(hs) == 6
            && AuthorityAfter(hs).ListFor(5) == b && InForce(hs, 5) == a
  {
    var first := [Status(0, None, a)];
    var hs := [Status(0, None, a), Status(5, None, b)];
    assert hs[..1] == first && first[..0] == [];
  }

  lemma {:induction false} AuthorityAfterConsistent(hs: seq<Status>)
    ensures AuthorityAfter(hs).Consistent()
    ensures AuthorityAfter(hs).list == if hs == [] then [] else hs[|hs| - 1].authorityList
  {
    if hs == [] { assert AddressSet([]) == {}; } else { AuthorityAfterConsistent(hs[..|hs| - 1]); }
  }

  lemma {:induction false} ConsecutiveIncreases(hs: seq<Status>)
    requires Consecutive(hs)
    ensures Increasing(hs)
  {
    if hs != [] { ConsecutiveIncreases(hs[..|hs| - 1]); }
  }

  lemma {:induction false} StatusesPrefix(trace: seq<Event>, n: nat)
    requires n <= |trace| && Consecutive(Statuses(trace))
    ensures Consecutive(Statuses(trace[..n]))
  {
    if n < |trace| {
      var before := trace[..|trace| - 1];
      var hs := Statuses(before);
      if Statuses(trace) != hs {
        assert Statuses(trace)[..|hs|] == hs;
      }
      StatusesPrefix(before, n);
      assert before[..n] == trace[..n];
    } else {
      assert trace[..n] == trace;
    }
  }

  /** A vote cast by a member of the list in force at its own height. */
  ghost predicate VoteJudged(hs: seq<Status>, v: BftVote) {
    v.voter in AddressSet(InForce(hs, v.height))
  }

  /** The one address that a list makes proposer of a height and round. */
  predicate RightfulProposer(nodes: seq<Node>, height: u64, round: u64, proposer: Address) {
    nodes != [] && height + round < U64_BOUND && nodes[ProposerIndex(height, round, |nodes|)].address == proposer
  }

  /** A proposal of the rightful proposer of the list in force at its own height,
      the previous height's proof accepted by the list in force there. */
  ghost predicate ProposalJudged(env: Env, hs: seq<Status>, at: u64, p: BftProposal, sp: SignedProposal) {
    && RightfulProposer(InForce(hs, p.height), p.height, p.round, p.proposer)
    && (sp.proposal.lockRound.Some? ==>
          forall sv | sv in sp.proposal.lockVotes :: sv.vote.voter in AddressSet(InForce(hs, p.height)))
    && (p.height == at ==> at > 0 && ProofVerified(env, sp.proposal.proof, at - 1, InForce(hs, at - 1)))
  }

  lemma ListInForce(hs: seq<Status>, height: u64)
    requires hs != [] && Consecutive(hs) && HeightAfter(hs) < U64_BOUND
    requires height == HeightAfter(hs) || height + 1 == HeightAfter(hs)
    ensures AuthorityAfter(hs).ListFor(height) == InForce(hs, height)
  {
    ConsecutiveIncreases(hs);
    hide InForce, AuthorityAfter, Increasing;
    TwoGenerations(hs);
  }

  lemma JudgeVote(env: Env, e: Event, hs: seq<Status>)
    requires EventSound(env, e) && e.input.ToVote?
    requires Consecutive(hs) && e.at == HeightAfter(hs) && e.under == AuthorityAfter(hs)
    ensures VoteJudged(hs, e.input.vote)
  {
    hide InForce, Consecutive, Env.Authentic;
    assert AddressSet([]) == {};
    if hs != [] { ListInForce(hs, e.input.vote.height); }
  }

  lemma LockVotersListed(env: Env, under: Authority, p: Proposal)
    requires under.Consistent() && LockAccepted(env, under, p) && p.lockRound.Some?
    ensures forall sv | sv in p.lockVotes :: sv.vote.voter in AddressSet(under.ListFor(p.height))
  {
    assert forall sv | sv in p.lockVotes :: LockVoteOk(env, under, p, sv);
  }

  lemma JudgeProposal(env: Env, e: Event, hs: seq<Status>)
    requires EventSound(env, e) && e.input.ToProposal?
    requires Consecutive(hs) && e.at == HeightAfter(hs) && e.under == AuthorityAfter(hs)
    ensures e.wire.ByProposal? && ProposalJudged(env, hs, e.at, e.input.proposal, e.wire.sp)
  {
    hide InForce, Consecutive, ProofVerified, LockAccepted, Env.AuthenticProposal;
    if hs != [] {
      ListInForce(hs, e.input.proposal.height);
      if e.wire.sp.proposal.lockRound.Some? { LockVotersListed(env, e.under, e.wire.sp.proposal); }
      if e.input.proposal.height == e.at { ListInForce(hs, e.at - 1); }
    }
  }

  /** In every run of consecutive statuses, each vote and proposal handed to the
      core was judged by the list in force at its own height. */
  lemma JudgedByOwnHeight(env: Env, inputs: seq<Input>, i: nat)
    requires env.SignsForItself() && OwnVotes(env, inputs)
    requires i < |Run(env, inputs).trace| && Consecutive(Statuses(Run(env, inputs).trace))
    ensures var e, hs := Run(env, inputs).trace[i], Statuses(Run(env, inputs).trace[..i]);
            && (e.input.ToVote? ==> VoteJudged(hs, e.input.vote))
            && (e.input.ToProposal? ==>
                  e.wire.ByProposal? && ProposalJudged(env, hs, e.at, e.input.proposal, e.wire.sp))
  {
    var trace := Run(env, inputs).trace;
    var e, hs := trace[i], Statuses(trace[..i]);
    RunSound(env, inputs);
    RunTracked(env, inputs);
    hide Run, Statuses, EventSound, VoteJudged, ProposalJudged, StoreSound, VoteCacheSound, ProposalCacheSound;
    assert e in trace;
    StatusesPrefix(trace, i);
    if e.input.ToVote? { JudgeVote(env, e, hs); }
    if e.input.ToProposal? { JudgeProposal(env, e, hs); }
  }
}
