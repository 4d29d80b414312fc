/** Histories of the vote index, and the reference it is compared with: an index that
    never forgets. */
module VoteIndex {
  import opened Prelude
  import opened Types
  import opened LruCache
  import opened Collection

  datatype Use =
    | AddVote(height: u64, round: u64, voteType: VoteType, key: BftVote, signed: SignedVote)
    | GetVotes(height: u64, round: u64, voteType: VoteType)

  function Apply(st: VoteStore, u: Use): VoteStore {
    match u
    case AddVote(h, r, t, b, sv) => StoreAdd(st, h, r, t, b, sv).0
    case GetVotes(h, r, t) => StoreGet(st, h, r, t).0
  }

  /** The index after a history of uses, oldest first. */
  function Bounded(uses: seq<Use>): VoteStore {
    if uses == [] then EmptyLru() else Apply(Bounded(uses[..|uses| - 1]), uses[|uses| - 1])
  }

  type Place = (u64, u64, VoteType)

  /** The reference: a map that never forgets, first write wins. */
  function Unbounded(uses: seq<Use>): map<Place, VoteSet> {
    if uses == [] then map[]
    else
      var before, last := Unbounded(uses[..|uses| - 1]), uses[|uses| - 1];
      if last.GetVotes? then before
      else
        var place := (last.height, last.round, last.voteType);
        var stored := if place in before then before[place] else map[];
        before[place := if last.key in stored then stored else stored[last.key := last.signed]]
  }

  function UnboundedGet(uses: seq<Use>, h: u64, r: u64, t: VoteType): Option<VoteSet> {
    if (h, r, t) in Unbounded(uses) then Some(Unbounded(uses)[(h, r, t)]) else None
  }

  /** The collector of one height after a use of that height. */
  function Inner(rc: RoundCollector, u: Use): RoundCollector {
    match u
    case AddVote(_, r, t, b, sv) => RoundAdd(rc, r, t, b, sv).0
    case GetVotes(_, r, t) => RoundGet(rc, r, t).0
  }

  function CollectorOf(st: VoteStore, h: u64): RoundCollector {
    if h in st.items then st.items[h] else EmptyLru()
  }

  /** A use writes the collector of its height, unless it is a lookup that misses. */
  lemma ApplyIs(st: VoteStore, u: Use)
    ensures Apply(st, u) == if u.AddVote? || u.height in st.items
                            then st.Put(u.height, Inner(CollectorOf(st, u.height), u)) else st
  {
    hide Lru.Put, RoundAdd, RoundGet;
  }

  lemma UnboundedStep(uses: seq<Use>, u: Use, h: u64, r: u64, t: VoteType)
    ensures UnboundedGet(uses + [u], h, r, t) ==
            (if u.AddVote? && (u.height, u.round, u.voteType) == (h, r, t)
             then
               var before := UnboundedGet(uses, h, r, t);
               Some(VoteSetAdd(if before.Some? then before.value else map[], u.key, u.signed).0)
             else UnboundedGet(uses, h, r, t))
  {
    assert (uses + [u])[..|uses|] == uses;
  }
}
