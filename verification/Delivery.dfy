/** What reaching a height does with the messages cached for it. */
module Delivery {
  import opened Prelude
  import opened Types
  import opened Env
  import opened Collection
  import opened Authority
  import opened Engine
  import opened Safety
  import opened History

  /** A cached vote that is not forwarded: its voter is no member, or it cannot be
      logged. */
  predicate Refused(env: Env, under: Authority, at: u64, sv: SignedVote) {
    sv.vote.voter !in under.AddressesFor(at) || !env.logs(LogSignedVote(sv))
  }

  function FirstRefused(env: Env, under: Authority, at: u64, votes: seq<SignedVote>): (n: nat)
    ensures n <= |votes|
    ensures n < |votes| ==> Refused(env, under, at, votes[n])
    ensures forall i :: 0 <= i < n ==> !Refused(env, under, at, votes[i])
  {
    if votes == [] || Refused(env, under, at, votes[0]) then 0 else 1 + FirstRefused(env, under, at, votes[1..])
  }

  /** Votes handed to the core at a height, one event each. */
  function VoteEvents(under: Authority, at: u64, votes: seq<SignedVote>): (es: seq<Event>)
    ensures |es| == |votes|
  {
    if votes == [] then []
    else [Event(ToVote(ToBftVote(votes[0].vote)), at, under, ByVote(votes[0]))] + VoteEvents(under, at, votes[1..])
  }

  ghost predicate CachedFor(env: Env, votes: seq<SignedVote>, height: u64) {
    forall sv | sv in votes :: sv.vote.height == height && env.Authentic(sv)
  }

  lemma ForwardCached(env: Env, s: State, sv: SignedVote)
    requires s.height > 0 && sv.vote.height == s.height && env.Authentic(sv)
    ensures var (s', r) := ForwardVote(env, s, sv);
            && s'.voteCache == s.voteCache && s'.height == s.height && s'.authority == s.authority
            && (r.Success? <==> !Refused(env, s.authority, s.height, sv))
            && (r.Success? ==>
                  s'.trace == s.trace + [Event(ToVote(ToBftVote(sv.vote)), s.height, s.authority, ByVote(sv))])
            && (r.Failure? ==> s'.trace == s.trace)
  {
    hide StoreAdd;
  }

  /** Draining forwards exactly the votes before the first refused one, in arrival
      order, fails exactly when there is one, and caches nothing again. */
  lemma {:induction false} DrainExact(env: Env, s: State, votes: seq<SignedVote>)
    requires s.height > 0 && CachedFor(env, votes, s.height)
    ensures var (s', r) := DrainVotes(env, s, votes);
            var n := FirstRefused(env, s.authority, s.height, votes);
            && s'.trace == s.trace + VoteEvents(s.authority, s.height, votes[..n])
            && s'.voteCache == s.voteCache
            && (r.Success? <==> n == |votes|)
    decreases |votes|
  {
    if votes != [] {
      hide ForwardVote, Refused, VoteEvents, CachedFor;
      var n := FirstRefused(env, s.authority, s.height, votes);
      CachedSplits(env, votes, s.height);
      ForwardCached(env, s, votes[0]);
      var s1, rest := ForwardVote(env, s, votes[0]).0, votes[1..];
      if n > 0 {
        DrainExact(env, s1, rest);
        EventsSplit(s.trace, s.authority, s.height, votes, n);
      } else {
        assert VoteEvents(s.authority, s.height, votes[..n]) == [];
      }
    }
  }

  lemma CachedSplits(env: Env, votes: seq<SignedVote>, height: u64)
    requires CachedFor(env, votes, height) && votes != []
    ensures votes[0].vote.height == height && env.Authentic(votes[0]) && CachedFor(env, votes[1..], height)
  {
    assert votes[0] in votes && forall sv :: sv in votes[1..] ==> sv in votes;
  }

  lemma EventsSplit(trace: seq<Event>, under: Authority, at: u64, votes: seq<SignedVote>, n: nat)
    requires 0 < n <= |votes|
    ensures trace + VoteEvents(under, at, votes[..n]) ==
            trace + [Event(ToVote(ToBftVote(votes[0].vote)), at, under, ByVote(votes[0]))]
                  + VoteEvents(under, at, votes[1..][..n - 1])
  {
    var taken := votes[..n];
    assert taken[0] == votes[0] && taken[1..] == votes[1..][..n - 1];
  }

  /** Right after a height is entered both block caches are empty, so the first
      proposal cached for it is turned away and nothing is sent. */
  lemma CachedProposalRefused(env: Env, s: State, cached: seq<Cached>)
    requires cached != [] && cached[0].signed.proposal.height == s.height
    requires s.verified == map[] && s.origin == map[]
    ensures var (s', r) := DrainProposals(env, s, cached);
            r.Failure? && s'.trace == s.trace && s'.voteCache == s.voteCache && s'.proof == s.proof
  {
    hide HandleSignedProposal;
    BlockLost(env, s, cached[0].signed);
  }

  /** A current proposal of unknown block is refused. */
  lemma BlockLost(env: Env, s: State, sp: SignedProposal)
    requires sp.proposal.height == s.height && sp.proposal.hash !in s.verified && sp.proposal.hash !in s.origin
    ensures var (s', r) := HandleSignedProposal(env, s, sp);
            r.Failure? && s'.proof == s.proof
  {
    hide CheckLockVotes, ProposerCheck, ProposalsAdd;
  }

  function CachedVotes(s: State, height: u64): seq<SignedVote> {
    if height in s.voteCache then s.voteCache[height] else []
  }

  /** Entering a height: if any proposal was cached for it, nothing cached is
      delivered and the votes cached for it stay behind; otherwise exactly the
      cached votes up to the first refused one are forwarded, and only that
      height's entry leaves the cache. */
  lemma StatusDelivers(env: Env, s: State, rs: Status)
    requires Inv(env, s) && HandleRichStatus(env, s, rs).1.Success?
    ensures var (s', r) := ReceiveStatus(env, s, rs);
            var entered := Entered(env, s, rs);
            var votes := CachedVotes(s, entered.height);
            var n := FirstRefused(env, entered.authority, entered.height, votes);
            if entered.height in s.proposalCache
            then r.Failure? && s'.trace == entered.trace && s'.voteCache == s.voteCache
            else && s'.trace == entered.trace + VoteEvents(entered.authority, entered.height, votes[..n])
                 && s'.voteCache == s.voteCache - {entered.height}
                 && (r.Success? <==> n == |votes|)
  {
    hide StoreSound, EventSound, DrainProposals, DrainVotes;
    var entered := Entered(env, s, rs);
    var h, votes := entered.height, CachedVotes(s, entered.height);
    assert entered.voteCache == s.voteCache && entered.proposalCache == s.proposalCache;
    assert h > 0 && entered.verified == map[] && entered.origin == map[];
    if h in s.proposalCache {
      var cached := s.proposalCache[h];
      assert cached[0] in cached;
      CachedProposalRefused(env, entered.(proposalCache := entered.proposalCache - {h}), cached);
    } else if h in s.voteCache {
      var s1 := entered.(voteCache := entered.voteCache - {h});
      assert CachedFor(env, votes, h);
      DrainExact(env, s1, votes);
    } else {
      assert entered.voteCache - {h} == entered.voteCache;
    }
  }

  /** In every run, the votes cached for the height an accepted status leads to
      reach the core all and in arrival order if and only if no proposal is cached
      for it and none of them is refused. */
  lemma CachedVotesDeliveredIff(env: Env, inputs: seq<Input>, rs: Status)
    requires env.SignsForItself() && OwnVotes(env, inputs)
    requires HandleRichStatus(env, Run(env, inputs), rs).1.Success?
    ensures var s := Run(env, inputs);
            var entered := Entered(env, s, rs);
            var votes := CachedVotes(s, entered.height);
            ReceiveStatus(env, s, rs).0.trace == entered.trace + VoteEvents(entered.authority, entered.height, votes)
            <==> || votes == []
                 || (&& entered.height !in s.proposalCache
                     && forall sv | sv in votes :: !Refused(env, entered.authority, entered.height, sv))
  {
    RunSound(env, inputs);
    var s := Run(env, inputs);
    hide Run;
    StatusDelivers(env, s, rs);
    var entered := Entered(env, s, rs);
    var votes := CachedVotes(s, entered.height);
    var n := FirstRefused(env, entered.authority, entered.height, votes);
    assert |VoteEvents(entered.authority, entered.height, votes)| == |votes|;
    if n == |votes| { assert votes[..n] == votes; } else { assert votes[n] in votes; }
  }
}
