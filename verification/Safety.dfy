/** What every run of the driver keeps: the soundness of the vote store, of the
    caches and of everything handed to the core. */
module Safety {
  import opened Prelude
  import opened Types
  import opened Env
  import opened Collection
  import opened Authority
  import opened Proofs
  import opened Engine

  // ---- the vote store

  /** A stored vote converts to its key and is signed by its voter; in a precommit
      set the key is moreover a precommit for exactly that height and round. */
  predicate EntrySound(env: Env, h: u64, r: u64, t: VoteType, b: BftVote, sv: SignedVote) {
    && ToBftVote(sv.vote) == b
    && env.Authentic(sv)
    && (t == Precommit ==> b.voteType == Precommit && b.height == h && b.round == r)
  }

  ghost predicate StoreSound(env: Env, st: VoteStore) {
    && StoreValid(st)
    && forall h, r, t, b | b in Slot(st, h, r, t) :: EntrySound(env, h, r, t, b, Slot(st, h, r, t)[b])
  }

  lemma AddSound(env: Env, st: VoteStore, h: u64, r: u64, t: VoteType, sv: SignedVote)
    requires StoreSound(env, st) && EntrySound(env, h, r, t, ToBftVote(sv.vote), sv)
    ensures StoreSound(env, StoreAdd(st, h, r, t, ToBftVote(sv.vote), sv).0)
  {
    hide StoreAdd, Peek, EntrySound;
    AddWrites(st, h, r, t, ToBftVote(sv.vote), sv);
    var after := StoreAdd(st, h, r, t, ToBftVote(sv.vote), sv).0;
    forall h', r', t', b | b in Slot(after, h', r', t')
      ensures EntrySound(env, h', r', t', b, Slot(after, h', r', t')[b])
    {
      assert Peek(after, h', r', t').Some?;
      if Peek(after, h', r', t') == Peek(st, h', r', t') { assert b in Slot(st, h', r', t'); }
      else { assert b == ToBftVote(sv.vote) || b in Slot(st, h', r', t'); }
    }
  }

  lemma GetSound(env: Env, st: VoteStore, h: u64, r: u64, t: VoteType)
    requires StoreSound(env, st)
    ensures StoreSound(env, StoreGet(st, h, r, t).0)
  {
    hide StoreGet, Peek, EntrySound;
    GetReads(st, h, r, t);
    var after := StoreGet(st, h, r, t).0;
    forall h', r', t', b | b in Slot(after, h', r', t')
      ensures EntrySound(env, h', r', t', b, Slot(after, h', r', t')[b])
    {
      assert b in Slot(st, h', r', t');
    }
  }

  // ---- what may be handed to the core

  /** A vote sent at height `at` under `under`, with the wire message behind it. */
  ghost predicate VoteAdmissible(env: Env, at: u64, under: Authority, v: BftVote, sv: SignedVote) {
    && v == ToBftVote(sv.vote)
    && env.Authentic(sv)
    && (v.height == at || v.height + 1 == at)
    && v.voter in AddressSet(under.ListFor(v.height))
  }

  /** One lock vote of a locked proposal. */
  predicate LockVoteOk(env: Env, under: Authority, p: Proposal, sv: SignedVote) {
    && sv.vote.voter in under.AddressesFor(p.height)
    && sv.vote.proposal == p.hash
    && env.Authentic(sv)
  }

  ghost predicate DistinctVoters(votes: seq<SignedVote>) {
    forall i, j :: 0 <= i < j < |votes| ==> votes[i].vote.voter != votes[j].vote.voter
  }

  function Voters(votes: seq<SignedVote>): set<Address> {
    set i | 0 <= i < |votes| :: votes[i].vote.voter
  }

  /** Lock votes from distinct members for the proposal's height, each naming its
      hash and signed by its voter, above two thirds of the old list. */
  ghost predicate LockAccepted(env: Env, under: Authority, p: Proposal) {
    p.lockRound.None? ||
    (&& DistinctVoters(p.lockVotes)
     && AllLockVotesOk(env, under, p, p.lockVotes)
     && 3 * |p.lockVotes| > 2 * |under.oldList|
     && exists a | a in Voters(p.lockVotes) :: a in under.oldAddresses)
  }

  /** A proposal sent at height `at` under `under`. */
  ghost predicate ProposalAdmissible(env: Env, at: u64, under: Authority, p: BftProposal, sp: SignedProposal) {
    && p == ToBftProposal(sp.proposal, sp.proposal.hash)
    && env.AuthenticProposal(sp)
    && (p.height == at || p.height + 1 == at)
    && ProposerCheck(under, p.height, p.round, p.proposer).Success?
    && LockAccepted(env, under, sp.proposal)
    && (p.height == at ==> at > 0 && ProofVerified(env, sp.proposal.proof, at - 1, under.ListFor(at - 1)))
  }

  ghost predicate EventSound(env: Env, e: Event) {
    && e.under.Consistent()
    && match e.input
       case ToVote(v) => e.wire.ByVote? && VoteAdmissible(env, e.at, e.under, v, e.wire.sv)
       case ToProposal(p) => e.wire.ByProposal? && ProposalAdmissible(env, e.at, e.under, p, e.wire.sp)
       case ToStatus(st) => e.wire.ByStatus? && st == ToBftStatus(e.wire.rs) && e.at == st.height + 1
                            && e.under.list == e.wire.rs.authorityList
       case _ => true
  }

  // ---- the invariant

  /** Cached votes wait under their own height, signed by their voters. */
  ghost predicate VoteCacheSound(env: Env, cache: map<u64, seq<SignedVote>>) {
    forall h, sv | h in cache && sv in cache[h] :: sv.vote.height == h && env.Authentic(sv)
  }

  ghost predicate ProposalCacheSound(cache: map<u64, seq<Cached>>) {
    forall h | h in cache :: cache[h] != [] && forall c | c in cache[h] :: c.signed.proposal.height == h
  }

  ghost predicate Inv(env: Env, s: State) {
    && s.authority.Consistent()
    && StoreSound(env, s.votes)
    && ProposalsValid(s.proposals)
    && VoteCacheSound(env, s.voteCache)
    && ProposalCacheSound(s.proposalCache)
    && forall e | e in s.trace :: EventSound(env, e)
  }

  lemma SendSound(env: Env, s: State, input: CoreInput, wire: Wire)
    requires Inv(env, s) && EventSound(env, Event(input, s.height, s.authority, wire))
    ensures Inv(env, Send(s, input, wire))
  {
    hide StoreSound, ProposalsValid, VoteCacheSound, ProposalCacheSound, EventSound;
  }

  // ---- votes

  lemma HandleSignedVoteSound(env: Env, s: State, sv: SignedVote)
    requires Inv(env, s)
    ensures var (s', r) := HandleSignedVote(env, s, sv);
            Inv(env, s') && (r.Success? ==> VoteAdmissible(env, s.height, s.authority, r.value, sv))
  {
    hide StoreSound, StoreAdd, ProposalCacheSound, EventSound;
    var (s', r) := HandleSignedVote(env, s, sv);
    var v := sv.vote;
    if s'.votes != s.votes {
      AddSound(env, s.votes, v.height, v.round, v.voteType, sv);
    }
    if s'.voteCache != s.voteCache {
      forall h, x | h in s'.voteCache && x in s'.voteCache[h] ensures x.vote.height == h && env.Authentic(x) {
        if h != v.height || x != sv { assert h in s.voteCache && x in s.voteCache[h]; }
      }
    }
  }

  lemma ForwardVoteSound(env: Env, s: State, sv: SignedVote)
    requires Inv(env, s)
    ensures Inv(env, ForwardVote(env, s, sv).0)
  {
    hide HandleSignedVote, VoteAdmissible;
    var (s', r) := HandleSignedVote(env, s, sv);
    HandleSignedVoteSound(env, s, sv);
    if r.Success? { SendSound(env, s', ToVote(r.value), ByVote(sv)); }
  }

  lemma {:induction false} DrainVotesSound(env: Env, s: State, votes: seq<SignedVote>)
    requires Inv(env, s)
    ensures Inv(env, DrainVotes(env, s, votes).0)
    decreases |votes|
  {
    if votes != [] {
      hide ForwardVote, Inv;
      ForwardVoteSound(env, s, votes[0]);
      if ForwardVote(env, s, votes[0]).1.Success? { DrainVotesSound(env, ForwardVote(env, s, votes[0]).0, votes[1..]); }
    }
  }

  // ---- lock votes

  lemma CheckSignedVoteSound(env: Env, s: State, p: Proposal, round: u64, sv: SignedVote)
    requires StoreSound(env, s.votes)
    ensures var (s', r) := CheckSignedVote(env, s, p.height, round, p.hash, sv);
            && StoreSound(env, s'.votes)
            && (r.Success? <==> s.height > 0 && p.height >= s.height - 1 && LockVoteOk(env, s.authority, p, sv))
            && (r.Success? ==> r.value == sv.vote.voter && Slot(s'.votes, p.height, round, Prevote).Keys
                                 == Slot(s.votes, p.height, round, Prevote).Keys + {ToBftVote(sv.vote)})
  {
    hide StoreAdd;
    if CheckSignedVote(env, s, p.height, round, p.hash, sv).1.Success? {
      AddSound(env, s.votes, p.height, round, Prevote, sv);
      hide StoreSound, Peek;
      AddWrites(s.votes, p.height, round, Prevote, ToBftVote(sv.vote), sv);
    }
  }

  lemma VotersOf(votes: seq<SignedVote>)
    requires votes != []
    ensures Voters(votes) == {votes[0].vote.voter} + Voters(votes[1..])
    ensures DistinctVoters(votes) <==> votes[0].vote.voter !in Voters(votes[1..]) && DistinctVoters(votes[1..])
  {
    var rest := votes[1..];
    forall a ensures a in Voters(votes) <==> a in {votes[0].vote.voter} + Voters(rest) {
      if a in Voters(votes) {
        var i :| 0 <= i < |votes| && votes[i].vote.voter == a;
        assert i > 0 ==> rest[i - 1].vote.voter == a;
      }
      if a in Voters(rest) {
        var i :| 0 <= i < |rest| && rest[i].vote.voter == a;
        assert votes[i + 1].vote.voter == a;
      }
    }
    if votes[0].vote.voter in Voters(rest) {
      var i :| 0 <= i < |rest| && rest[i].vote.voter == votes[0].vote.voter;
      assert votes[i + 1].vote.voter == votes[0].vote.voter;
    } else if DistinctVoters(rest) {
      forall i, j | 0 <= i < j < |votes| ensures votes[i].vote.voter != votes[j].vote.voter {
        if i == 0 { assert rest[j - 1].vote.voter in Voters(rest); }
        else { assert rest[i - 1].vote.voter != rest[j - 1].vote.voter; }
      }
    }
    if DistinctVoters(votes) {
      forall i, j | 0 <= i < j < |rest| ensures rest[i].vote.voter != rest[j].vote.voter {
        assert votes[i + 1].vote.voter != votes[j + 1].vote.voter;
      }
    }
  }

  ghost predicate AllLockVotesOk(env: Env, under: Authority, p: Proposal, votes: seq<SignedVote>) {
    forall sv | sv in votes :: LockVoteOk(env, under, p, sv)
  }

  lemma AllLockVotesOkSplits(env: Env, under: Authority, p: Proposal, votes: seq<SignedVote>)
    requires votes != []
    ensures AllLockVotesOk(env, under, p, votes)
            <==> LockVoteOk(env, under, p, votes[0]) && AllLockVotesOk(env, under, p, votes[1..])
  {
    hide LockVoteOk;
    assert forall sv :: sv in votes <==> sv == votes[0] || sv in votes[1..];
  }

  ghost predicate NewVoters(votes: seq<SignedVote>, senders: set<Address>) {
    DistinctVoters(votes) && senders !! Voters(votes)
  }

  lemma NewVotersSplits(votes: seq<SignedVote>, senders: set<Address>)
    requires votes != []
    ensures var first := votes[0].vote.voter;
            && (NewVoters(votes, senders) <==> first !in senders && NewVoters(votes[1..], senders + {first}))
            && senders + {first} + Voters(votes[1..]) == senders + Voters(votes)
  {
    VotersOf(votes);
    hide Voters, DistinctVoters;
    var first, rest := votes[0].vote.voter, Voters(votes[1..]);
    assert senders !! ({first} + rest) <==> first !in senders && senders !! rest;
    assert (senders + {first}) !! rest <==> first !in rest && senders !! rest;
  }

  /** One turn of the loop. */
  lemma CollectSendersTurn(env: Env, s: State, p: Proposal, round: u64, votes: seq<SignedVote>, senders: set<Address>)
    requires votes != []
    ensures var (s1, r1) := CheckSignedVote(env, s, p.height, round, p.hash, votes[0]);
            var all := CollectSenders(env, s, p.height, round, p.hash, votes, senders);
            if r1.Success? && r1.value !in senders
            then all == CollectSenders(env, s1, p.height, round, p.hash, votes[1..], senders + {r1.value})
            else all.1.Failure? && all.0 == s1
  {
    hide CheckSignedVote;
  }

  /** The loop succeeds exactly on acceptable votes of distinct new voters. */
  lemma {:induction false} CollectSendersSound(env: Env, s: State, p: Proposal, round: u64, votes: seq<SignedVote>,
                                               senders: set<Address>)
    requires StoreSound(env, s.votes) && s.height > 0 && p.height >= s.height - 1
    ensures var (s', r) := CollectSenders(env, s, p.height, round, p.hash, votes, senders);
            && StoreSound(env, s'.votes)
            && (r.Success? <==> AllLockVotesOk(env, s.authority, p, votes) && NewVoters(votes, senders))
            && (r.Success? ==> r.value == senders + Voters(votes) && |r.value| == |senders| + |votes|)
    decreases |votes|
  {
    if votes != [] {
      hide CheckSignedVote, CollectSenders, LockVoteOk, AllLockVotesOk, StoreSound, Slot, Voters, NewVoters;
      CollectSendersTurn(env, s, p, round, votes, senders);
      var (s1, r1) := CheckSignedVote(env, s, p.height, round, p.hash, votes[0]);
      CheckSignedVoteSound(env, s, p, round, votes[0]);
      NewVotersSplits(votes, senders);
      AllLockVotesOkSplits(env, s.authority, p, votes);
      if r1.Success? && r1.value !in senders {
        CollectSendersSound(env, s1, p, round, votes[1..], senders + {r1.value});
      }
    } else {
      assert Voters(votes) == {};
    }
  }

  /** After a successful loop every vote is in the slot, and none has left it. */
  lemma {:induction false} CollectSendersStores(env: Env, s: State, p: Proposal, round: u64, votes: seq<SignedVote>,
                                                senders: set<Address>)
    requires StoreSound(env, s.votes) && CollectSenders(env, s, p.height, round, p.hash, votes, senders).1.Success?
    ensures var s' := CollectSenders(env, s, p.height, round, p.hash, votes, senders).0;
            && Slot(s.votes, p.height, round, Prevote).Keys <= Slot(s'.votes, p.height, round, Prevote).Keys
            && forall i :: 0 <= i < |votes| ==> ToBftVote(votes[i].vote) in Slot(s'.votes, p.height, round, Prevote)
    decreases |votes|
  {
    if votes != [] {
      hide CheckSignedVote, CollectSenders, StoreSound, Slot;
      CollectSendersTurn(env, s, p, round, votes, senders);
      var (s1, r1) := CheckSignedVote(env, s, p.height, round, p.hash, votes[0]);
      CheckSignedVoteSound(env, s, p, round, votes[0]);
      CollectSendersStores(env, s1, p, round, votes[1..], senders + {r1.value});
      var s' := CollectSenders(env, s, p.height, round, p.hash, votes, senders).0;
      var slot := Slot(s'.votes, p.height, round, Prevote);
      forall i | 0 <= i < |votes| ensures ToBftVote(votes[i].vote) in slot {
        if i > 0 { assert votes[i] == votes[1..][i - 1]; }
      }
    }
  }

  /** The lock check accepts exactly the acceptable lock votes, and afterwards
      every one of them is found in the prevote set of the lock round. */
  lemma LockCheck(env: Env, s: State, p: Proposal)
    requires Inv(env, s) && s.height > 0 && p.height >= s.height - 1
    ensures var (s', r) := CheckLockVotes(env, s, p);
            && Inv(env, s')
            && (r.Success? <==> LockAccepted(env, s.authority, p))
            && (r.Success? && p.lockRound.Some? ==>
                  forall i :: 0 <= i < |p.lockVotes| ==>
                    ToBftVote(p.lockVotes[i].vote) in Slot(s'.votes, p.height, p.lockRound.value, Prevote))
  {
    hide StoreSound, ProposalsValid, VoteCacheSound, ProposalCacheSound, EventSound, LockVoteOk, DistinctVoters, Voters,
         CollectSenders;
    if p.lockRound.Some? {
      if CollectSenders(env, s, p.height, p.lockRound.value, p.hash, p.lockVotes, {}).1.Success? {
        CollectSendersStores(env, s, p, p.lockRound.value, p.lockVotes, {});
      }
      CollectSendersSound(env, s, p, p.lockRound.value, p.lockVotes, {});
      assert {} + Voters(p.lockVotes) == Voters(p.lockVotes);
    }
  }

  lemma {:induction false} DistinctVotersCount(votes: seq<SignedVote>)
    requires DistinctVoters(votes)
    ensures |Voters(votes)| == |votes|
  {
    if votes != [] {
      VotersOf(votes);
      DistinctVotersCount(votes[1..]);
    }
  }

  // ---- proposals

  lemma AdmitSound(env: Env, s: State, p: Proposal)
    requires Inv(env, s) && s.height > 0 && p.height >= s.height - 1
    ensures var (s', r) := AdmitProposal(env, s, p);
            && Inv(env, s')
            && (r.Success? ==>
                  && r.value.0 == ToBftProposal(p, p.hash)
                  && (p.height == s.height || p.height + 1 == s.height)
                  && (p.height == s.height ==>
                        ProofVerified(env, p.proof, s.height - 1, s.authority.ListFor(s.height - 1))))
  {
    hide StoreSound, ProposalsValid, VoteCacheSound, ProposalCacheSound, EventSound, ProofVerified;
  }

  lemma HandleSignedProposalSound(env: Env, s: State, sp: SignedProposal)
    requires Inv(env, s)
    ensures var (s', r) := HandleSignedProposal(env, s, sp);
            && Inv(env, s')
            && (r.Success? ==> ProposalAdmissible(env, s.height, s.authority, r.value.0, sp))
  {
    hide StoreSound, ProposalsValid, VoteCacheSound, ProposalCacheSound, EventSound, LockAccepted, CheckLockVotes,
         ProposerCheck, ProofVerified, ProposalsAdd, AdmitProposal;
    var p := sp.proposal;
    if s.height > 0 && p.height >= s.height - 1 {
      ProposalsAddWrites(s.proposals, p.height, p.round, sp);
      var s1 := s.(proposals := ProposalsAdd(s.proposals, p.height, p.round, sp).0);
      LockCheck(env, s1, p);
      AdmitSound(env, CheckLockVotes(env, s1, p).0, p);
    }
  }

  lemma ForwardProposalSound(env: Env, s: State, sp: SignedProposal)
    requires Inv(env, s)
    ensures Inv(env, ForwardProposal(env, s, sp).0)
  {
    hide HandleSignedProposal, ProposalAdmissible;
    HandleSignedProposalSound(env, s, sp);
    var (s', r) := HandleSignedProposal(env, s, sp);
    if r.Success? {
      SendSound(env, s', ToProposal(r.value.0), ByProposal(sp));
      var sent := Send(s', ToProposal(r.value.0), ByProposal(sp));
      if r.value.1.Some? { SendSound(env, sent, ToVerifyResp(r.value.1.value), NoWire); }
    }
  }

  lemma {:induction false} DrainProposalsSound(env: Env, s: State, cached: seq<Cached>)
    requires Inv(env, s)
    ensures Inv(env, DrainProposals(env, s, cached).0)
    decreases |cached|
  {
    if cached != [] {
      hide ForwardProposal, Inv;
      ForwardProposalSound(env, s, cached[0].signed);
      var (s', r) := ForwardProposal(env, s, cached[0].signed);
      if r.Success? { DrainProposalsSound(env, s', cached[1..]); }
    }
  }

  lemma ReceiveProposalSound(env: Env, s: State, bytes: Bytes)
    requires Inv(env, s)
    ensures Inv(env, ReceiveProposal(env, s, bytes).0)
  {
    hide StoreSound, VoteCacheSound, EventSound, ForwardProposal, DecodeProposalMessage;
    var decoded := DecodeProposalMessage(env, bytes);
    if decoded.Success? {
      var (sp, block, hash) := decoded.value;
      var s1, h := s.(origin := OrInsert(s.origin, hash, block)), sp.proposal.height;
      var cache := Push(s.proposalCache, h, Cached(sp, block, bytes));
      forall k | k in cache
        ensures cache[k] != [] && forall c: Cached | c in cache[k] :: c.signed.proposal.height == k
      {
        if k != h { assert k in s.proposalCache && cache[k] == s.proposalCache[k]; }
      }
      ForwardProposalSound(env, s1, sp);
    }
  }

  // ---- status

  lemma ReceiveStatusSound(env: Env, s: State, rs: Status)
    requires Inv(env, s)
    ensures Inv(env, ReceiveStatus(env, s, rs).0)
  {
    hide StoreSound, EventSound, DrainVotes, DrainProposals;
    var (s1, r) := HandleRichStatus(env, s, rs);
    if r.Success? {
      var s2 := SwitchPower(env, s1, env.address in AddressSet(rs.authorityList));
      assert Inv(env, s2) by { SwitchSound(env, s1, env.address in AddressSet(rs.authorityList)); }
      SendStatusSound(env, s2, rs);
      var s3 := Send(s2, ToStatus(r.value), ByStatus(rs));
      hide Inv;
      SendCacheProposalSound(env, s3, s3.height);
      var s4 := SendCacheProposal(env, s3, s3.height).0;
      SendCacheVoteSound(env, s4, s4.height);
    }
  }

  lemma SwitchSound(env: Env, s: State, member: bool)
    requires Inv(env, s)
    ensures Inv(env, SwitchPower(env, s, member))
  {
    hide StoreSound, VoteCacheSound, ProposalCacheSound;
  }

  lemma SendStatusSound(env: Env, s: State, rs: Status)
    requires Inv(env, s) && s.height == rs.height + 1 && s.authority.list == rs.authorityList
    ensures Inv(env, Send(s, ToStatus(ToBftStatus(rs)), ByStatus(rs)))
  {
    hide StoreSound, VoteCacheSound, ProposalCacheSound;
    SendSound(env, s, ToStatus(ToBftStatus(rs)), ByStatus(rs));
  }

  lemma SendCacheProposalSound(env: Env, s: State, height: u64)
    requires Inv(env, s)
    ensures Inv(env, SendCacheProposal(env, s, height).0)
  {
    hide StoreSound, VoteCacheSound, EventSound, DrainProposals;
    if height in s.proposalCache {
      DrainProposalsSound(env, s.(proposalCache := s.proposalCache - {height}), s.proposalCache[height]);
    }
  }

  lemma SendCacheVoteSound(env: Env, s: State, height: u64)
    requires Inv(env, s)
    ensures Inv(env, SendCacheVote(env, s, height).0)
  {
    hide StoreSound, ProposalCacheSound, EventSound, DrainVotes;
    if height in s.voteCache {
      DrainVotesSound(env, s.(voteCache := s.voteCache - {height}), s.voteCache[height]);
    }
  }

  // ---- outputs of the core

  lemma FindLockVotesSound(env: Env, s: State, p: BftProposal)
    requires StoreSound(env, s.votes)
    ensures StoreSound(env, FindLockVotes(s, p).0.votes)
  {
    hide StoreGet, StoreSound, LookUpVotes;
    GetSound(env, s.votes, p.height, p.round, Prevote);
  }

  lemma HandleProposalSound(env: Env, s: State, p: BftProposal)
    requires Inv(env, s)
    ensures Inv(env, HandleProposal(env, s, p).0)
  {
    hide StoreSound, ProposalsValid, VoteCacheSound, ProposalCacheSound, EventSound, FindLockVotes,
         EncodeProposalMessage, ProposalsAdd;
    FindLockVotesSound(env, s, p);
    var built := BuildSignedProposal(env, s, p).1;
    if built.Success? { ProposalsAddWrites(s.proposals, p.height, p.round, built.value); }
  }

  lemma HandleVoteSound(env: Env, s: State, v: BftVote)
    requires Inv(env, s) && env.SignsForItself() && v.voter == env.address
    ensures Inv(env, HandleVote(env, s, v).0)
  {
    hide StoreSound, StoreAdd, VoteCacheSound, ProposalCacheSound, EventSound;
    var r := HandleVote(env, s, v).1;
    if r.Success? {
      AddSound(env, s.votes, v.height, v.round, v.voteType, r.value);
    }
  }

  lemma HandleCommitSound(env: Env, s: State, c: BftCommit)
    requires Inv(env, s)
    ensures Inv(env, HandleCommit(env, s, c).0)
  {
    hide StoreSound, StoreGet, VoteCacheSound, ProposalCacheSound, EventSound, CollectSignatures;
    GetSound(env, s.votes, c.height, c.round, Precommit);
  }

  lemma CoreCommitSound(env: Env, s: State, c: BftCommit, answer: Option<Status>)
    requires Inv(env, s)
    ensures Inv(env, CoreCommit(env, s, c, answer).0)
  {
    hide Inv, HandleCommit, ReceiveStatus;
    HandleCommitSound(env, s, c);
    if answer.Some? { ReceiveStatusSound(env, HandleCommit(env, s, c).0, answer.value); }
  }

  // ---- every run

  lemma ProcessSound(env: Env, s: State, i: Input)
    requires Inv(env, s) && env.SignsForItself() && (i.CoreVote? ==> i.v.voter == env.address)
    ensures Inv(env, Process(env, s, i).0)
  {
    hide StoreSound, VoteCacheSound, ProposalCacheSound;
    match i {
      case PeerProposal(bytes) => hide Inv, ReceiveProposal; ReceiveProposalSound(env, s, bytes);
      case PeerVote(bytes) =>
        hide Inv, ForwardVote;
        forall sv { ForwardVoteSound(env, s, sv); }
      case NewStatus(rs) => hide Inv, ReceiveStatus; ReceiveStatusSound(env, s, rs);
      case CoreProposal(p) => hide Inv, HandleProposal; HandleProposalSound(env, s, p);
      case CoreVote(v) => hide Inv, HandleVote; HandleVoteSound(env, s, v);
      case Committed(c, answer) => hide Inv, CoreCommit; CoreCommitSound(env, s, c, answer);
      case ProposalRequest(_) =>
      case Verified(vr) => SendSound(env, s, ToVerifyResp(vr), NoWire);
      case Fed(f) => SendSound(env, s, ToFeed(BftFeed(f.height, env.contentHash(f.content))), NoWire);
    }
  }

  /** In every run the vote store and the caches are sound, and everything ever
      handed to the core was admissible when it was sent, whether delivered
      directly or drained from a cache. */
  lemma {:induction false} RunSound(env: Env, inputs: seq<Input>)
    requires env.SignsForItself() && OwnVotes(env, inputs)
    ensures Inv(env, Run(env, inputs))
  {
    if inputs == [] {
      InitialSound(env);
    } else {
      hide Inv, Process;
      var before := inputs[..|inputs| - 1];
      RunSound(env, before);
      ProcessSound(env, Run(env, before), inputs[|inputs| - 1]);
    }
  }

  lemma InitialSound(env: Env)
    ensures Inv(env, Initial())
  {
    assert AddressSet([]) == {};
  }
}
