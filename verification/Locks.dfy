/** What two locks accepted for one height must have in common. Lock votes are judged
    by the list of the height but counted against the old list; a lock for a height is
    accepted while a node is at that height or just after it, and the old list is
    another one then. So the answer depends on both moments. */
module Locks {
  import opened Prelude
  import opened Types
  import opened Env
  import opened Authority
  import opened Proofs
  import opened Engine
  import opened Safety
  import opened History

  // ---- exactly what is shared

  /** The fewest voters above two thirds of the old list. */
  function LockSize(under: Authority): nat { 2 * |under.oldList| / 3 + 1 }

  ghost predicate LockSet(under: Authority, height: u64, voters: set<Address>) {
    && voters <= under.AddressesFor(height)
    && |voters| >= LockSize(under)
    && exists a | a in voters :: a in under.oldAddresses
  }

  /** A lock proposed for a block at a height and accepted. */
  ghost predicate Locked(env: Env, under: Authority, height: u64, hash: Hash, p: Proposal) {
    p.height == height && p.hash == hash && p.lockRound.Some? && LockAccepted(env, under, p)
  }

  /** Each of these members can sign a prevote for the block. */
  ghost predicate CanLock(env: Env, members: set<Address>, height: u64, round: u64, hash: Hash) {
    forall a | a in members :: exists sig :: env.Authentic(SignedVote(Vote(Prevote, height, round, hash, a), sig))
  }

  /** Members of the height's list that the old list has as well. */
  function StayingMembers(under: Authority, height: u64): set<Address> {
    under.AddressesFor(height) * under.oldAddresses
  }

  predicate LockPossible(under: Authority, height: u64) {
    |under.AddressesFor(height)| >= LockSize(under) && StayingMembers(under, height) != {}
  }

  /** The fewest voters that a lock set of one moment shares with one of another. */
  function LeastShared(a: Authority, b: Authority, height: u64): nat {
    var over := LockSize(a) + LockSize(b) - |a.AddressesFor(height)|;
    if over > 0 then over
    else if StayingMembers(a, height) == StayingMembers(b, height) && |StayingMembers(a, height)| == 1 then 1 else 0
  }

  /** The voters of an accepted lock: distinct members, above two thirds of the old list. */
  lemma VotersAreLockSet(env: Env, under: Authority, height: u64, hash: Hash, p: Proposal)
    requires Locked(env, under, height, hash, p)
    ensures LockSet(under, height, Voters(p.lockVotes)) && |Voters(p.lockVotes)| == |p.lockVotes|
  {
    forall i | 0 <= i < |p.lockVotes| ensures p.lockVotes[i].vote.voter in under.AddressesFor(height) {
      assert LockVoteOk(env, under, p, p.lockVotes[i]);
    }
    DistinctVotersCount(p.lockVotes);
  }

  /** Lock votes for a block cast by a given set of voters. */
  lemma {:induction false} VotesOf(env: Env, members: set<Address>, height: u64, round: u64, hash: Hash,
                                   voters: set<Address>)
      returns (votes: seq<SignedVote>)
    requires CanLock(env, members, height, round, hash) && voters <= members
    ensures DistinctVoters(votes) && Voters(votes) == voters
    ensures forall sv | sv in votes :: env.Authentic(sv) && sv.vote.proposal == hash
    decreases |voters|
  {
    if voters == {} {
      votes := [];
    } else {
      var a :| a in voters;
      var first := VoteBy(env, members, height, round, hash, a);
      hide CanLock, DistinctVoters, Voters, Env.Authentic;
      var rest := VotesOf(env, members, height, round, hash, voters - {a});
      votes := [first] + rest;
      assert votes[1..] == rest;
      VotersOf(votes);
    }
  }

  lemma VoteBy(env: Env, members: set<Address>, height: u64, round: u64, hash: Hash, a: Address)
      returns (sv: SignedVote)
    requires CanLock(env, members, height, round, hash) && a in members
    ensures env.Authentic(sv) && sv.vote.proposal == hash && sv.vote.voter == a
  {
    var sig :| env.Authentic(SignedVote(Vote(Prevote, height, round, hash, a), sig));
    sv := SignedVote(Vote(Prevote, height, round, hash, a), sig);
  }

  /** Every lock set is the voters of some accepted lock. */
  lemma LockOf(env: Env, under: Authority, height: u64, round: u64, hash: Hash, voters: set<Address>)
      returns (p: Proposal)
    requires CanLock(env, under.AddressesFor(height), height, round, hash) && LockSet(under, height, voters)
    ensures Locked(env, under, height, hash, p) && Voters(p.lockVotes) == voters
  {
    hide DistinctVoters, Voters, CanLock;
    var votes := VotesOf(env, under.AddressesFor(height), height, round, hash, voters);
    p := Proposal(height, round, hash, Proof([], 0, 0, map[]), Some(round), votes, []);
    DistinctVotersCount(votes);
    assert forall sv | sv in votes :: LockVoteOk(env, under, p, sv) by {
      forall sv | sv in votes ensures sv.vote.voter in voters { AmongVoters(votes, sv); }
    }
  }

  lemma AmongVoters(votes: seq<SignedVote>, sv: SignedVote)
    requires sv in votes
    ensures sv.vote.voter in Voters(votes)
  {
  }

  /** Between two nested sets lies one of each size in between. */
  lemma {:induction false} SetBetween(low: set<Address>, high: set<Address>, size: nat) returns (s: set<Address>)
    requires low <= high && |low| <= size <= |high|
    ensures low <= s <= high && |s| == size
    decreases size - |low|
  {
    if |low| == size {
      s := low;
    } else {
      assert high - low != {} by {
        assert high == low + (high - low);
      }
      var a :| a in high - low;
      SubsetSize(low + {a}, high);
      s := SetBetween(low + {a}, high, size);
    }
  }

  lemma LeastSharedIsShared(a: Authority, b: Authority, height: u64, v: set<Address>, w: set<Address>)
    requires a.AddressesFor(height) == b.AddressesFor(height)
    requires LockSet(a, height, v) && LockSet(b, height, w)
    ensures |v * w| >= LeastShared(a, b, height) && LockPossible(a, height) && LockPossible(b, height)
  {
    var members := a.AddressesFor(height);
    SubsetSize(v, members);
    SubsetSize(w, members);
    SubsetSize(v + w, members);
    assert |v + w| + |v * w| == |v| + |w|;
    var x :| x in v && x in a.oldAddresses;
    var y :| y in w && y in b.oldAddresses;
    assert x in StayingMembers(a, height) && y in StayingMembers(b, height);
    if StayingMembers(a, height) == StayingMembers(b, height) && |StayingMembers(a, height)| == 1 {
      SubsetSize({x, y}, StayingMembers(a, height));
      if x == y { SubsetSize({x}, v * w); }
    }
  }

  /** Two lock sets of the two moments that share no more than they must. */
  lemma LeastSharedReached(a: Authority, b: Authority, height: u64) returns (v: set<Address>, w: set<Address>)
    requires a.AddressesFor(height) == b.AddressesFor(height)
    requires LockPossible(a, height) && LockPossible(b, height)
    ensures LockSet(a, height, v) && LockSet(b, height, w) && |v * w| == LeastShared(a, b, height)
  {
    var members, k, l := a.AddressesFor(height), LockSize(a), LockSize(b);
    var here, there := StayingMembers(a, height), StayingMembers(b, height);
    if k + l > |members| {
      v, w := CoveringSets(members, here, there, k, l);
    } else if here == there && |here| == 1 {
      var x :| x in here;
      v := SetBetween({x}, members, k);
      assert |members - v| == |members| - k;
      var other := members - v + {x};
      assert |other| == |members| - k + 1;
      w := SetBetween({x}, other, l);
      assert v * w == {x};
    } else {
      var x, y := TwoOf(here, there);
      assert |members - {y}| == |members| - 1;
      v := SetBetween({x}, members - {y}, k);
      assert |members - v| == |members| - k;
      w := SetBetween({y}, members - v, l);
      assert v * w == {};
    }
  }

  /** Different elements of two sets that are not the same singleton. */
  lemma TwoOf(s: set<Address>, t: set<Address>) returns (x: Address, y: Address)
    requires s != {} && t != {} && !(s == t && |s| == 1)
    ensures x in s && y in t && x != y
  {
    x :| x in s;
    if t == {x} {
      y := x;
      assert s != {x};
      assert s - {x} != {} by { assert s == (s - {x}) + {x}; }
      x :| x in s - {y};
    } else {
      assert t - {x} != {} by { assert t == (t - {x}) + (t * {x}); }
      y :| y in t - {x};
    }
  }

  /** Sets that together are all members, of given sizes and with given elements. */
  lemma CoveringSets(members: set<Address>, s: set<Address>, t: set<Address>, k: nat, l: nat)
      returns (v: set<Address>, w: set<Address>)
    requires s <= members && t <= members && s != {} && t != {}
    requires 0 < k <= |members| && 0 < l <= |members| && k + l > |members|
    ensures v <= members && w <= members && |v| == k && |w| == l && |v * w| == k + l - |members|
    ensures v * s != {} && w * t != {}
  {
    var x :| x in s;
    var y :| y in t;
    v := SetBetween({x}, members, k);
    assert |members - v| == |members| - k;
    var other := members - v + {y};
    w := SetBetween(other, members, l);
    assert v + w == members;
    assert |v + w| + |v * w| == |v| + |w|;
    assert x in v * s && y in w * t;
  }

  ghost predicate SharesAtLeast(a: Authority, b: Authority, height: u64, t: nat) {
    t <= LeastShared(a, b, height) || !LockPossible(a, height) || !LockPossible(b, height)
  }

  /** Exactly how much two accepted locks share, whichever moments they are accepted
      at: every lock accepted for one block under `a` and every one accepted for
      another under `b` have at least `t` voters in common if and only if `t` is at
      most `LeastShared`, or no lock can be accepted under one of the two. */
  lemma LocksShareIff(env: Env, a: Authority, b: Authority, height: u64, round: u64, x: Hash, y: Hash, t: nat)
    requires a.AddressesFor(height) == b.AddressesFor(height)
    requires CanLock(env, a.AddressesFor(height), height, round, x)
    requires CanLock(env, a.AddressesFor(height), height, round, y)
    ensures (forall p, q | Locked(env, a, height, x, p) && Locked(env, b, height, y, q) ::
               |Voters(p.lockVotes) * Voters(q.lockVotes)| >= t)
            <==> SharesAtLeast(a, b, height, t)
  {
    hide Locked, CanLock, LockSet, LeastShared, LockPossible, Voters;
    forall p, q | Locked(env, a, height, x, p) && Locked(env, b, height, y, q)
      ensures |Voters(p.lockVotes) * Voters(q.lockVotes)| >= LeastShared(a, b, height)
      ensures LockPossible(a, height) && LockPossible(b, height)
    {
      VotersAreLockSet(env, a, height, x, p);
      VotersAreLockSet(env, b, height, y, q);
      LeastSharedIsShared(a, b, height, Voters(p.lockVotes), Voters(q.lockVotes));
    }
    if LockPossible(a, height) && LockPossible(b, height) {
      var v, w := LeastSharedReached(a, b, height);
      var p := LockOf(env, a, height, round, x, v);
      var q := LockOf(env, b, height, round, y, w);
      assert |Voters(p.lockVotes) * Voters(q.lockVotes)| == LeastShared(a, b, height);
    }
  }

  /** What two accepted locks must share in any case: more than a third of the members
      where the list of the height is the one counted against both times. */
  lemma LocksOverlap(env: Env, a: Authority, b: Authority, p: Proposal, q: Proposal)
    requires LockAccepted(env, a, p) && LockAccepted(env, b, q) && p.lockRound.Some? && q.lockRound.Some?
    requires p.height == q.height && a.Consistent() && b.Consistent() && a.ListFor(p.height) == b.ListFor(p.height)
    ensures var shared, nodes := Voters(p.lockVotes) * Voters(q.lockVotes), a.ListFor(p.height);
            && |shared| >= LeastShared(a, b, p.height)
            && |shared| >= LockSize(a) + LockSize(b) - |AddressSet(nodes)|
            && 3 * |shared| > 2 * |a.oldList| + 2 * |b.oldList| - 3 * |AddressSet(nodes)|
            && (nodes == a.oldList == b.oldList ==> 3 * |shared| > |nodes|)
  {
    hide LockAccepted, Voters, AddressSet, LockSet, StayingMembers;
    VotersAreLockSet(env, a, p.height, p.hash, p);
    VotersAreLockSet(env, b, q.height, q.hash, q);
    LeastSharedIsShared(a, b, p.height, Voters(p.lockVotes), Voters(q.lockVotes));
    AddressSetSize(a.ListFor(p.height));
  }

  // ---- the two moments of a height

  /** A lock accepted while a node is at the height that its statuses led to, or after
      the status of that height has arrived as well. */
  ghost predicate LockedAround(env: Env, hs: seq<Status>, next: Status, hash: Hash, p: Proposal) {
    || Locked(env, AuthorityAfter(hs), next.height, hash, p)
    || Locked(env, AuthorityAfter(hs + [next]), next.height, hash, p)
  }

  /** `next` is the status of the height that the statuses before it led to. */
  ghost predicate Follows(hs: seq<Status>, next: Status) {
    hs != [] && Increasing(hs) && next.height == HeightAfter(hs)
  }

  /** Both moments judge by one list; the first counts against the list before it, the
      second against the list itself. */
  lemma Moments(hs: seq<Status>, next: Status)
    requires Follows(hs, next)
    ensures var a, b, h := AuthorityAfter(hs), AuthorityAfter(hs + [next]), next.height;
            && a.Consistent() && b.Consistent()
            && a.ListFor(h) == b.ListFor(h) == b.oldList == a.list
            && a.AddressesFor(h) == b.AddressesFor(h) == b.oldAddresses == a.addresses
  {
    StatusStep(hs, next);
    AuthorityAfterConsistent(hs);
    AuthorityAfterConsistent(hs + [next]);
  }

  /** Exactly how much two locks share that are accepted for one height at any two of
      its moments. */
  lemma LocksAroundShareIff(env: Env, hs: seq<Status>, next: Status, round: u64, x: Hash, y: Hash, t: nat)
    requires Follows(hs, next)
    requires var members := AuthorityAfter(hs).addresses;
             CanLock(env, members, next.height, round, x) && CanLock(env, members, next.height, round, y)
    ensures var a, b, h := AuthorityAfter(hs), AuthorityAfter(hs + [next]), next.height;
            (forall p, q | LockedAround(env, hs, next, x, p) && LockedAround(env, hs, next, y, q) ::
               |Voters(p.lockVotes) * Voters(q.lockVotes)| >= t)
            <==> SharesAtLeast(a, a, h, t) && SharesAtLeast(a, b, h, t) && SharesAtLeast(b, b, h, t)
  {
    var a, b, h := AuthorityAfter(hs), AuthorityAfter(hs + [next]), next.height;
    Moments(hs, next);
    hide Locked, CanLock, Voters, SharesAtLeast, AuthorityAfter, Follows;
    LocksShareIff(env, a, a, h, round, x, y, t);
    LocksShareIff(env, a, b, h, round, x, y, t);
    LocksShareIff(env, b, a, h, round, x, y, t);
    LocksShareIff(env, b, b, h, round, x, y, t);
    SharesSymmetric(a, b, h, t);
  }

  lemma SharesSymmetric(a: Authority, b: Authority, height: u64, t: nat)
    requires a.AddressesFor(height) == b.AddressesFor(height)
    ensures SharesAtLeast(a, b, height, t) == SharesAtLeast(b, a, height, t)
  {
  }

  /** The sizes that the answer depends on: the members of the height's list, the
      smallest lock at each of the two moments, and the old members still in it. */
  function Members(hs: seq<Status>): nat { |AuthorityAfter(hs).addresses| }

  function FirstLock(hs: seq<Status>): nat { LockSize(AuthorityAfter(hs)) }

  function SecondLock(hs: seq<Status>): nat { 2 * |AuthorityAfter(hs).list| / 3 + 1 }

  function Staying(hs: seq<Status>): nat { |AuthorityAfter(hs).addresses * AuthorityAfter(hs).oldAddresses| }

  lemma SharesBySizes(hs: seq<Status>, next: Status, t: nat)
    requires Follows(hs, next)
    ensures var a, b, h := AuthorityAfter(hs), AuthorityAfter(hs + [next]), next.height;
            var n, k, l, s := Members(hs), FirstLock(hs), SecondLock(hs), Staying(hs);
            && n <= |a.list|
            && (SharesAtLeast(a, a, h, t) <==> t <= 2 * k - n || (s == 1 && t <= 1) || t == 0 || n < k || s == 0)
            && (SharesAtLeast(a, b, h, t) <==> t <= k + l - n || t == 0 || n < k || n < l || s == 0)
            && (SharesAtLeast(b, b, h, t) <==> t <= 2 * l - n || t == 0 || n < l)
  {
    var a, b, h := AuthorityAfter(hs), AuthorityAfter(hs + [next]), next.height;
    Moments(hs, next);
    AddressSetSize(a.list);
    assert StayingMembers(b, h) == a.addresses;
    assert |StayingMembers(a, h)| == 0 <==> StayingMembers(a, h) == {};
    assert |StayingMembers(b, h)| == 0 <==> StayingMembers(b, h) == {};
    hide AuthorityAfter, Follows, AddressSet;
  }

  /** Any two locks accepted for a height, at whichever moments, have a common voter if
      and only if two smallest locks of the first moment do not fit into the list or
      fewer than two old members stay in it, and smallest locks of both moments do
      not fit into it either or no old member stays. */
  lemma LocksMeetIff(env: Env, hs: seq<Status>, next: Status, round: u64, x: Hash, y: Hash)
    requires Follows(hs, next)
    requires var members := AuthorityAfter(hs).addresses;
             CanLock(env, members, next.height, round, x) && CanLock(env, members, next.height, round, y)
    ensures (forall p, q | LockedAround(env, hs, next, x, p) && LockedAround(env, hs, next, y, q) ::
               |Voters(p.lockVotes) * Voters(q.lockVotes)| >= 1)
            <==> && (Members(hs) < 2 * FirstLock(hs) || Staying(hs) < 2)
                 && (Members(hs) < FirstLock(hs) + SecondLock(hs) || Staying(hs) == 0)
  {
    LocksAroundShareIff(env, hs, next, round, x, y, 1);
    SharesBySizes(hs, next, 1);
    hide LockedAround, CanLock, Voters, AuthorityAfter, Staying, Members;
  }

  /** They share more than a third of the members if and only if no lock can be accepted
      at the first moment or, at that moment alone, the smallest lock exceeds two
      thirds of the members or the list is at most two long with one old member, and
      the smallest locks of both moments together exceed four thirds of them -- unless
      the list, having repeated entries, is too short for the second. */
  lemma LocksThirdIff(env: Env, hs: seq<Status>, next: Status, round: u64, x: Hash, y: Hash)
    requires Follows(hs, next)
    requires var members := AuthorityAfter(hs).addresses;
             CanLock(env, members, next.height, round, x) && CanLock(env, members, next.height, round, y)
    ensures var n, k, l, s := Members(hs), FirstLock(hs), SecondLock(hs), Staying(hs);
            (forall p, q | LockedAround(env, hs, next, x, p) && LockedAround(env, hs, next, y, q) ::
               |Voters(p.lockVotes) * Voters(q.lockVotes)| >= n / 3 + 1)
            <==> || n < k || s == 0
                 || (&& (3 * k > 2 * n || (n <= 2 && s == 1))
                     && (3 * (k + l) > 4 * n || n < l))
  {
    LocksAroundShareIff(env, hs, next, round, x, y, Members(hs) / 3 + 1);
    SharesBySizes(hs, next, Members(hs) / 3 + 1);
    hide LockedAround, CanLock, Voters, AuthorityAfter, Staying, Members;
  }

  /** Where the height's list is the one before it, any two locks accepted for the
      height share more than a third of it, at whichever moments. */
  lemma UnchangedListShares(env: Env, hs: seq<Status>, next: Status, x: Hash, y: Hash, p: Proposal, q: Proposal)
    requires Follows(hs, next) && AuthorityAfter(hs).oldList == AuthorityAfter(hs).list
    requires LockedAround(env, hs, next, x, p) && LockedAround(env, hs, next, y, q)
    ensures 3 * |Voters(p.lockVotes) * Voters(q.lockVotes)| > |AuthorityAfter(hs).list|
  {
    var a, b := AuthorityAfter(hs), AuthorityAfter(hs + [next]);
    Moments(hs, next);
    hide AuthorityAfter, Voters, LockAccepted, Follows;
    var under := if Locked(env, a, next.height, x, p) then a else b;
    var other := if Locked(env, a, next.height, y, q) then a else b;
    LocksOverlap(env, under, other, p, q);
  }

  /** At a single moment, locks always have a common voter if and only if the height's
      list is too short for two disjoint ones, or fewer than two old members stay. */
  lemma LocksMeetOnceIff(env: Env, under: Authority, height: u64, round: u64, x: Hash, y: Hash)
    requires CanLock(env, under.AddressesFor(height), height, round, x)
    requires CanLock(env, under.AddressesFor(height), height, round, y)
    ensures (forall p, q | Locked(env, under, height, x, p) && Locked(env, under, height, y, q) ::
               |Voters(p.lockVotes) * Voters(q.lockVotes)| >= 1)
            <==> |under.AddressesFor(height)| < 2 * LockSize(under) || |StayingMembers(under, height)| < 2
  {
    hide Locked, CanLock, Voters;
    LocksShareIff(env, under, under, height, round, x, y, 1);
    assert |StayingMembers(under, height)| == 0 <==> StayingMembers(under, height) == {};
  }

  // ---- locks without a common voter

  /** Lock votes naming the hash, signed one each by these addresses. */
  ghost predicate LockVotesBy(env: Env, p: Proposal, voters: seq<Address>) {
    && p.lockRound.Some? && |p.lockVotes| == |voters|
    && forall i | 0 <= i < |voters| ::
         var sv := p.lockVotes[i];
         sv.vote.voter == voters[i] && sv.vote.proposal == p.hash && env.Authentic(sv)
  }

  lemma VotesByAccepted(env: Env, under: Authority, p: Proposal, voters: seq<Address>, member: Address)
    requires LockVotesBy(env, p, voters) && forall i, j :: 0 <= i < j < |voters| ==> voters[i] != voters[j]
    requires forall a | a in voters :: a in under.AddressesFor(p.height)
    requires 3 * |voters| > 2 * |under.oldList| && member in voters && member in under.oldAddresses
    ensures LockAccepted(env, under, p)
    ensures forall a :: a in Voters(p.lockVotes) <==> a in voters
  {
    forall sv | sv in p.lockVotes ensures LockVoteOk(env, under, p, sv) {
      var i :| 0 <= i < |voters| && p.lockVotes[i] == sv;
      assert voters[i] in voters;
    }
    forall a ensures a in Voters(p.lockVotes) <==> a in voters {
      if a in voters {
        var i :| 0 <= i < |voters| && voters[i] == a;
        assert p.lockVotes[i].vote.voter == a;
      }
    }
  }

  lemma Listed(nodes: seq<Node>)
    ensures forall n :: n in nodes ==> n.address in AddressSet(nodes)
  {
  }

  /** A list that grows from two members to four: at one moment, two locks are accepted
      that have no voter in common. */
  lemma DisjointLocks(env: Env, a: Node, b: Node, c: Node, d: Node, p: Proposal, q: Proposal)
    requires |{a.address, b.address, c.address, d.address}| == 4
    requires 1 <= p.height == q.height
    requires LockVotesBy(env, p, [a.address, c.address]) && LockVotesBy(env, q, [b.address, d.address])
    ensures var under := NoAuthority().Updated(0, [a, b]).Updated(p.height - 1, [a, b, c, d]);
            && under.Consistent()
            && LockAccepted(env, under, p) && LockAccepted(env, under, q)
            && Voters(p.lockVotes) !! Voters(q.lockVotes)
  {
    hide LockAccepted, Voters, AddressSet, LockVotesBy;
    var under := NoAuthority().Updated(0, [a, b]).Updated(p.height - 1, [a, b, c, d]);
    Listed([a, b]);
    Listed([a, b, c, d]);
    VotesByAccepted(env, under, p, [a.address, c.address], a.address);
    VotesByAccepted(env, under, q, [b.address, d.address], b.address);
  }

  /** A list that grows from one member to four: a lock by the old member is accepted at
      the height, one by the three new members just after it, and though at either
      moment alone any two locks have a common voter, these have none. */
  lemma LocksSplit(env: Env, a: Node, b: Node, c: Node, d: Node, next: seq<Node>, p: Proposal, q: Proposal)
    requires |{a.address, b.address, c.address, d.address}| == 4
    requires p.height == q.height == 2
    requires LockVotesBy(env, p, [a.address]) && LockVotesBy(env, q, [b.address, c.address, d.address])
    ensures var hs, last := [Status(0, None, [a]), Status(1, None, [a, b, c, d])], Status(2, None, next);
            var first, second := AuthorityAfter(hs), AuthorityAfter(hs + [last]);
            && Follows(hs, last) && HeightAfter(hs) == 2 && HeightAfter(hs + [last]) == 3
            && Locked(env, first, 2, p.hash, p) && Locked(env, second, 2, q.hash, q)
            && Voters(p.lockVotes) !! Voters(q.lockVotes)
            && |StayingMembers(first, 2)| < 2
            && |second.AddressesFor(2)| < 2 * LockSize(second)
  {
    var hs, last := [Status(0, None, [a]), Status(1, None, [a, b, c, d])], Status(2, None, next);
    SplitAuthorities(a, b, c, d, next);
    var first, second := AuthorityAfter(hs), AuthorityAfter(hs + [last]);
    hide LockAccepted, Voters, AddressSet, LockVotesBy, AuthorityAfter, Follows;
    Listed([a]);
    Listed([a, b, c, d]);
    AddressSetSize([a]);
    AddressSetSize([a, b, c, d]);
    SubsetSize(StayingMembers(first, 2), AddressSet([a]));
    VotesByAccepted(env, first, p, [a.address], a.address);
    VotesByAccepted(env, second, q, [b.address, c.address, d.address], b.address);
  }

  lemma SplitAuthorities(a: Node, b: Node, c: Node, d: Node, next: seq<Node>)
    ensures var hs, last := [Status(0, None, [a]), Status(1, None, [a, b, c, d])], Status(2, None, next);
            var first := Authority([a, b, c, d], AddressSet([a, b, c, d]), [a], AddressSet([a]), 1);
            && Follows(hs, last) && HeightAfter(hs) == 2 && HeightAfter(hs + [last]) == 3
            && AuthorityAfter(hs) == first && AuthorityAfter(hs + [last]) == first.Updated(2, next)
  {
    hide AddressSet;
    var one, two := [Status(0, None, [a])], Status(1, None, [a, b, c, d]);
    assert AuthorityAfter([]) == NoAuthority() && Increasing([]) && HeightAfter([]) == 0;
    assert [] + [one[0]] == one && one + [two] == [one[0], two];
    StatusStep([], one[0]);
    StatusStep(one, two);
    StatusStep(one + [two], Status(2, None, next));
  }

  // ---- every run

  /** How statuses grow along a trace. */
  lemma {:induction false} StatusesGrow(trace: seq<Event>, i: nat)
    requires i <= |trace|
    ensures Statuses(trace[..i]) <= Statuses(trace)
  {
    if i < |trace| {
      var before := trace[..|trace| - 1];
      StatusesGrow(before, i);
      assert before[..i] == trace[..i];
    } else {
      assert trace[..i] == trace;
    }
  }

  lemma {:induction false} HeightsGrow(hs: seq<Status>, n: nat)
    requires Increasing(hs) && n <= |hs|
    ensures Increasing(hs[..n]) && HeightAfter(hs) >= HeightAfter(hs[..n]) + (|hs| - n)
  {
    if n < |hs| {
      var before := hs[..|hs| - 1];
      HeightsGrow(before, n);
      assert before[..n] == hs[..n];
    } else {
      assert hs[..n] == hs;
    }
  }

  /** The statuses of two moments of one height. */
  lemma SameOrNext(hs: seq<Status>, later: seq<Status>, height: u64)
    requires hs <= later && Increasing(later) && hs != []
    requires HeightAfter(hs) == height || HeightAfter(hs) == height + 1
    requires HeightAfter(later) == height || HeightAfter(later) == height + 1
    ensures later == hs || (later == hs + [later[|hs|]] && |later| == |hs| + 1 && Follows(hs, later[|hs|])
                            && HeightAfter(hs) == height)
  {
    HeightsGrow(later, |hs|);
    assert later[..|hs|] == hs;
    if |later| == |hs| + 1 { assert later == hs + [later[|hs|]] && later[..|later| - 1] == hs; }
  }

  /** Event `i` hands the core a locked proposal for this height. */
  ghost predicate HandsOverLock(trace: seq<Event>, i: nat, height: u64) {
    && i < |trace| && trace[i].input.ToProposal? && trace[i].wire.ByProposal?
    && trace[i].wire.sp.proposal.height == height && trace[i].wire.sp.proposal.lockRound.Some?
  }

  lemma LockEvent(env: Env, inputs: seq<Input>, i: nat, height: u64)
    requires env.SignsForItself() && OwnVotes(env, inputs) && HandsOverLock(Run(env, inputs).trace, i, height)
    ensures var e, hs := Run(env, inputs).trace[i], Statuses(Run(env, inputs).trace[..i]);
            && e.under == AuthorityAfter(hs) && e.at == HeightAfter(hs)
            && (HeightAfter(hs) == height || HeightAfter(hs) == height + 1) && e.at > 0 && hs != []
            && Locked(env, e.under, height, e.wire.sp.proposal.hash, e.wire.sp.proposal)
  {
    RunSound(env, inputs);
    RunTracked(env, inputs);
    hide Run, Statuses, StoreSound, VoteCacheSound, ProposalCacheSound, LockAccepted, AuthorityAfter, Switched;
    var e := Run(env, inputs).trace[i];
    assert e in Run(env, inputs).trace && EventSound(env, e);
  }

  /** One moment, or one and then the other. */
  ghost predicate Around(hs: seq<Status>, later: seq<Status>) {
    later == hs || (|later| == |hs| + 1 && later == hs + [later[|hs|]] && Follows(hs, later[|hs|]))
  }

  lemma PrefixesAround(all: seq<Status>, hs: seq<Status>, later: seq<Status>, height: u64)
    requires Increasing(all) && hs <= later <= all && hs != []
    requires HeightAfter(hs) == height || HeightAfter(hs) == height + 1
    requires HeightAfter(later) == height || HeightAfter(later) == height + 1
    ensures Increasing(hs) && Around(hs, later)
  {
    assert all[..|later|] == later && later[..|hs|] == hs;
    HeightsGrow(all, |later|);
    HeightsGrow(later, |hs|);
    SameOrNext(hs, later, height);
  }

  lemma StatusesOfPrefixes(trace: seq<Event>, i: nat, j: nat)
    requires i <= j <= |trace|
    ensures Statuses(trace[..i]) <= Statuses(trace[..j]) <= Statuses(trace)
  {
    hide Statuses;
    StatusesGrow(trace, j);
    StatusesGrow(trace[..j], i);
    assert trace[..j][..i] == trace[..i];
  }

  lemma EventsAround(env: Env, inputs: seq<Input>, i: nat, j: nat, height: u64)
    requires env.SignsForItself() && OwnVotes(env, inputs) && i < j
    requires HandsOverLock(Run(env, inputs).trace, i, height) && HandsOverLock(Run(env, inputs).trace, j, height)
    ensures var trace := Run(env, inputs).trace;
            var hs := Statuses(trace[..i]);
            Increasing(hs) && hs != [] && HeightAfter(hs) >= height && Around(hs, Statuses(trace[..j]))
  {
    LockEvent(env, inputs, i, height);
    LockEvent(env, inputs, j, height);
    RunTracked(env, inputs);
    var trace := Run(env, inputs).trace;
    StatusesOfPrefixes(trace, i, j);
    hide Run, Statuses, Locked, AuthorityAfter, Switched, Placed, HandsOverLock, Around, Increasing, Env.SignsForItself,
         OwnVotes, HeightAfter;
    PrefixesAround(Statuses(trace), Statuses(trace[..i]), Statuses(trace[..j]), height);
  }

  /** The list of a height is the same at both of its moments. */
  lemma AroundSameList(hs: seq<Status>, later: seq<Status>, height: u64)
    requires Around(hs, later) && Increasing(hs) && hs != []
    requires HeightAfter(hs) == height || (later == hs && HeightAfter(hs) == height + 1)
    ensures AuthorityAfter(hs).Consistent() && AuthorityAfter(later).Consistent()
    ensures AuthorityAfter(hs).ListFor(height) == AuthorityAfter(later).ListFor(height)
  {
    AuthorityAfterConsistent(hs);
    AuthorityAfterConsistent(later);
    if later != hs { Moments(hs, later[|hs|]); }
  }

  /** In every run, any two locked proposals that the core is handed for one height were
      accepted at one moment, or one at the height and the other after its status;
      their voters share at least what `LeastShared` says of these moments, and more
      than a third of the list where it is the one counted against both times. */
  lemma RunLocksShare(env: Env, inputs: seq<Input>, i: nat, j: nat, height: u64)
    requires env.SignsForItself() && OwnVotes(env, inputs) && i < j
    requires HandsOverLock(Run(env, inputs).trace, i, height) && HandsOverLock(Run(env, inputs).trace, j, height)
    ensures var trace := Run(env, inputs).trace;
            var hs, later := Statuses(trace[..i]), Statuses(trace[..j]);
            var shared := Voters(trace[i].wire.sp.proposal.lockVotes) * Voters(trace[j].wire.sp.proposal.lockVotes);
            var a, b := AuthorityAfter(hs), AuthorityAfter(later);
            && Around(hs, later)
            && |shared| >= LeastShared(a, b, height)
            && (a.ListFor(height) == a.oldList == b.oldList ==> 3 * |shared| > |a.oldList|)
  {
    LockEvent(env, inputs, i, height);
    LockEvent(env, inputs, j, height);
    EventsAround(env, inputs, i, j, height);
    var trace := Run(env, inputs).trace;
    var hs, later := Statuses(trace[..i]), Statuses(trace[..j]);
    var p, q := trace[i].wire.sp.proposal, trace[j].wire.sp.proposal;
    hide Run, Statuses, LockAccepted, AuthorityAfter, HandsOverLock, Voters, LeastShared, Env.SignsForItself,
         Increasing;
    assert HeightAfter(hs) == height || later == hs by { NextHigher(hs, later); }
    AroundSameList(hs, later, height);
    LocksOverlap(env, AuthorityAfter(hs), AuthorityAfter(later), p, q);
  }

  lemma NextHigher(hs: seq<Status>, later: seq<Status>)
    requires Around(hs, later)
    ensures later != hs ==> HeightAfter(later) == HeightAfter(hs) + 1
  {
  }
}
