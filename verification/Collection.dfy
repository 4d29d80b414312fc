/** The bounded vote and proposal indexes (src/collection.rs): an LRU of heights
    holding LRUs of rounds holding, per vote type, a first-write-wins vote set. */
module Collection {
  import opened Prelude
  import opened Types
  import opened LruCache

  type VoteSet = map<BftVote, SignedVote>
  type StepCollector = map<VoteType, VoteSet>
  type RoundCollector = Lru<StepCollector>
  type VoteStore = Lru<RoundCollector>
  type ProposalStore = Lru<Lru<SignedProposal>>

  function VoteSetAdd(vs: VoteSet, b: BftVote, sv: SignedVote): (VoteSet, bool) {
    if b in vs then (vs, false) else (vs[b := sv], true)
  }

  function StepAdd(sc: StepCollector, t: VoteType, b: BftVote, sv: SignedVote): (StepCollector, bool) {
    var (vs, added) := VoteSetAdd(if t in sc then sc[t] else map[], b, sv);
    (sc[t := vs], added)
  }

  function StepGet(sc: StepCollector, t: VoteType): Option<VoteSet> {
    if t in sc then Some(sc[t]) else None
  }

  function RoundAdd(rc: RoundCollector, round: u64, t: VoteType, b: BftVote, sv: SignedVote): (RoundCollector, bool) {
    var (sc, added) := StepAdd(if round in rc.items then rc.items[round] else map[], t, b, sv);
    (rc.Put(round, sc), added)
  }

  function RoundGet(rc: RoundCollector, round: u64, t: VoteType): (RoundCollector, Option<VoteSet>) {
    (rc.Touch(round), if round in rc.items then StepGet(rc.items[round], t) else None)
  }

  function StoreAdd(st: VoteStore, height: u64, round: u64, t: VoteType, b: BftVote, sv: SignedVote): (VoteStore, bool)
  {
    var (rc, added) := RoundAdd(if height in st.items then st.items[height] else EmptyLru(), round, t, b, sv);
    (st.Put(height, rc), added)
  }

  function StoreGet(st: VoteStore, height: u64, round: u64, t: VoteType): (VoteStore, Option<VoteSet>) {
    if height in st.items then
      var (rc, found) := RoundGet(st.items[height], round, t);
      (st.Put(height, rc), found)
    else (st, None)
  }

  function ProposalsAdd(st: ProposalStore, height: u64, round: u64, sp: SignedProposal): (ProposalStore, bool) {
    if height in st.items then
      if round in st.items[height].items then (st.Touch(height), false)
      else (st.Update(height, st.items[height].Insert(round, sp)), true)
    else
      (st.Insert(height, EmptyLru().Insert(round, sp)), true)
  }

  /** The mutable index behind `VoteCollector`; the inner collectors are owned
      values, reached only through it. */
  class VoteCollector {
    var votes: VoteStore

    constructor ()
      ensures votes == EmptyLru()
    {
      votes := EmptyLru();
    }

    method Add(height: u64, round: u64, t: VoteType, b: BftVote, sv: SignedVote) returns (added: bool)
      modifies this
      ensures (votes, added) == StoreAdd(old(votes), height, round, t, b, sv)
    {
      if height in votes.items {
        var (roundVotes, isNew) := RoundAdd(votes.items[height], round, t, b, sv);
        votes := votes.Put(height, roundVotes);
        added := isNew;
      } else {
        var (roundVotes, _) := RoundAdd(EmptyLru(), round, t, b, sv);
        votes := votes.Insert(height, roundVotes);
        added := true;
      }
    }

    method GetVoteSet(height: u64, round: u64, t: VoteType) returns (found: Option<VoteSet>)
      modifies this
      ensures (votes, found) == StoreGet(old(votes), height, round, t)
    {
      found := None;
      if height in votes.items {
        var (roundVotes, voteSet) := RoundGet(votes.items[height], round, t);
        votes := votes.Put(height, roundVotes);
        found := voteSet;
      }
    }
  }

  class ProposalCollector {
    var proposals: ProposalStore

    constructor ()
      ensures proposals == EmptyLru()
    {
      proposals := EmptyLru();
    }

    method Add(height: u64, round: u64, sp: SignedProposal) returns (added: bool)
      modifies this
      ensures (proposals, added) == ProposalsAdd(old(proposals), height, round, sp)
    {
      if height in proposals.items {
        var roundProposals := proposals.items[height];
        if round in roundProposals.items {
          added := false;
          proposals := proposals.Touch(height);
        } else {
          proposals := proposals.Update(height, roundProposals.Insert(round, sp));
          added := true;
        }
      } else {
        proposals := proposals.Insert(height, EmptyLru().Insert(round, sp));
        added := true;
      }
    }
  }

  // ---- what is stored where

  ghost predicate StoreValid(st: VoteStore) {
    st.Valid() && forall h :: h in st.items ==> st.items[h].Valid()
  }

  /** What a lookup would return, without the lookup's effect on recency. */
  function Peek(st: VoteStore, height: u64, round: u64, t: VoteType): Option<VoteSet> {
    if height in st.items && round in st.items[height].items then StepGet(st.items[height].items[round], t) else None
  }

  function Slot(st: VoteStore, height: u64, round: u64, t: VoteType): VoteSet {
    var found := Peek(st, height, round, t);
    if found.Some? then found.value else map[]
  }

  /** A lookup answers with what is stored and changes nothing but recency. */
  lemma GetReads(st: VoteStore, height: u64, round: u64, t: VoteType)
    requires StoreValid(st)
    ensures var (after, found) := StoreGet(st, height, round, t);
            && StoreValid(after)
            && found == Peek(st, height, round, t)
            && forall h, r, t' :: Peek(after, h, r, t') == Peek(st, h, r, t')
  {
    hide Lru.Put, Lru.Touch;
    if height in st.items {
      TouchKeeps(st.items[height], round);
      PutKeeps(st, height, st.items[height].Touch(round));
    }
  }

  /** `RoundAdd` on one height: the slot gains the vote unless it has one under
      that key; every other slot is unchanged or evicted. */
  lemma RoundAddWrites(rc: RoundCollector, round: u64, t: VoteType, b: BftVote, sv: SignedVote)
    requires rc.Valid()
    ensures var (after, added) := RoundAdd(rc, round, t, b, sv);
            var before := if round in rc.items then rc.items[round] else map[];
            && after.Valid()
            && round in after.items && after.items[round] == StepAdd(before, t, b, sv).0
            && (added <==> !(t in before && b in before[t]))
            && (forall r :: r in after.items && r != round ==> r in rc.items && after.items[r] == rc.items[r])
  {
    hide Lru.Put;
    PutKeeps(rc, round, StepAdd(if round in rc.items then rc.items[round] else map[], t, b, sv).0);
  }

  /** `add` is first-write-wins in its own slot, answers whether the vote was
      new there, and leaves any other slot unchanged unless it evicts it. */
  lemma AddWrites(st: VoteStore, height: u64, round: u64, t: VoteType, b: BftVote, sv: SignedVote)
    requires StoreValid(st)
    ensures var (after, added) := StoreAdd(st, height, round, t, b, sv);
            && StoreValid(after)
            && (added <==> b !in Slot(st, height, round, t))
            && Peek(after, height, round, t) == Some(VoteSetAdd(Slot(st, height, round, t), b, sv).0)
            && (forall t' :: t' != t ==> Peek(after, height, round, t') == Peek(st, height, round, t'))
            && (forall h, r, t' :: Peek(after, h, r, t') == Peek(st, h, r, t')
                                   || Peek(after, h, r, t') == None || (h == height && r == round && t' == t))
  {
    hide Lru.Put, RoundAdd;
    var rc := if height in st.items then st.items[height] else EmptyLru();
    RoundAddWrites(rc, round, t, b, sv);
    PutKeeps(st, height, RoundAdd(rc, round, t, b, sv).0);
  }

  // ---- proposals

  ghost predicate ProposalsValid(st: ProposalStore) {
    st.Valid() && forall h :: h in st.items ==> st.items[h].Valid()
  }

  function ProposalAt(st: ProposalStore, height: u64, round: u64): Option<SignedProposal> {
    if height in st.items && round in st.items[height].items then Some(st.items[height].items[round]) else None
  }

  /** The first proposal of a height and round stays, `add` answers whether it was
      the first, and any other place is unchanged unless it is evicted. */
  lemma ProposalsAddWrites(st: ProposalStore, height: u64, round: u64, sp: SignedProposal)
    requires ProposalsValid(st)
    ensures var (after, added) := ProposalsAdd(st, height, round, sp);
            var before := ProposalAt(st, height, round);
            && ProposalsValid(after)
            && (added <==> before.None?)
            && ProposalAt(after, height, round) == (if before.Some? then before else Some(sp))
            && forall h, r :: ProposalAt(after, h, r) == ProposalAt(st, h, r) || ProposalAt(after, h, r) == None
                              || (h == height && r == round)
  {
    hide Without, After;
    var rounds: Lru<SignedProposal> := if height in st.items then st.items[height] else EmptyLru();
    if height in st.items && round in rounds.items {
      TouchKeeps(st, height);
    } else {
      PutKeeps(rounds, round, sp);
      PutKeeps(st, height, rounds.Insert(round, sp));
    }
  }

  /** Which proposals an add drops: of the other heights, the least recently used one
      where a new height finds sixteen; of the other rounds of its height, the oldest
      where a new round finds sixteen. A repeated round drops and reorders none. */
  lemma ProposalsAddDrops(st: ProposalStore, height: u64, round: u64, sp: SignedProposal, h: u64, r: u64)
    requires ProposalsValid(st)
    ensures var after := ProposalsAdd(st, height, round, sp).0;
            && (h != height ==>
                  && (h in after.items <==> h in st.items && (height in st.items || |st.Newer(h)| < 15))
                  && (h in after.items ==> after.items[h] == st.items[h] && after.Newer(h) == st.Newer(h) + {height}))
            && height in after.items && after.Newer(height) == {}
            && (r != round ==>
                  var rounds := if height in st.items then st.items[height] else EmptyLru();
                  && (r in after.items[height].items <==>
                        r in rounds.items && (round in rounds.items || |rounds.Newer(r)| < 15))
                  && (r in after.items[height].items ==>
                        && after.items[height].items[r] == rounds.items[r]
                        && after.items[height].Newer(r) ==
                             if round in rounds.items then rounds.Newer(r) else rounds.Newer(r) + {round}))
  {
    var rounds: Lru<SignedProposal> := if height in st.items then st.items[height] else EmptyLru();
    hide Without, After;
    if round in rounds.items {
      TouchKeeps(st, height);
    } else {
      PutDrops(rounds, round, sp, r);
      PutDrops(st, height, rounds.Insert(round, sp), h);
    }
  }
}
