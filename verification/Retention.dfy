/** Exactly what the bounded vote index holds after any history: which heights and
    rounds are kept, and which votes of a slot that has been lost and added again. */
module Retention {
  import opened Prelude
  import opened Types
  import opened LruCache
  import opened Collection
  import opened VoteIndex

  /** The index is an LRU of heights, and each height's collector one of rounds. */
  datatype Level = ByHeight | ByRound

  function Key(l: Level, u: Use): u64 {
    if l == ByHeight then u.height else u.round
  }

  /** Keys that have been added to. */
  function Added(l: Level, uses: seq<Use>): set<u64> {
    if uses == [] then {}
    else
      var last := uses[|uses| - 1];
      Added(l, uses[..|uses| - 1]) + if last.AddVote? then {Key(l, last)} else {}
  }

  /** Other keys used since `k` was: by an add, or by a lookup that found its key
      still kept. */
  function Pressure(l: Level, uses: seq<Use>, k: u64): set<u64>
    decreases uses, 0
  {
    if uses == [] then {}
    else
      var before, last := uses[..|uses| - 1], uses[|uses| - 1];
      if last.GetVotes? && !Kept(l, before, Key(l, last)) then Pressure(l, before, k)
      else if Key(l, last) == k then {}
      else Pressure(l, before, k) + {Key(l, last)}
  }

  predicate Kept(l: Level, uses: seq<Use>, k: u64)
    decreases uses, 1
  {
    k in Added(l, uses) && |Pressure(l, uses, k)| < 16
  }

  /** The uses of a key since it was last inserted; none if it is not kept. */
  function Life(l: Level, uses: seq<Use>, k: u64): seq<Use> {
    if uses == [] || !Kept(l, uses, k) then []
    else
      var before, last := uses[..|uses| - 1], uses[|uses| - 1];
      Life(l, before, k) + if Key(l, last) == k then [last] else []
  }

  /** The votes of one type in a history of uses, the first under each key. */
  function Votes(uses: seq<Use>, t: VoteType): Option<VoteSet> {
    if uses == [] then None
    else
      var before, last := Votes(uses[..|uses| - 1], t), uses[|uses| - 1];
      if last.AddVote? && last.voteType == t then
        Some(VoteSetAdd(if before.Some? then before.value else map[], last.key, last.signed).0)
      else before
  }

  // ---- one level

  ghost predicate Follows<V>(c: Lru<V>, l: Level, uses: seq<Use>) {
    && c.Valid()
    && forall k :: (k in c.items <==> Kept(l, uses, k)) && (k in c.items ==> c.Newer(k) == Pressure(l, uses, k))
  }

  lemma PressureStep(l: Level, uses: seq<Use>, u: Use, k: u64)
    ensures var all := uses + [u];
            && Added(l, all) == Added(l, uses) + (if u.AddVote? then {Key(l, u)} else {})
            && Pressure(l, all, k) == if u.GetVotes? && !Kept(l, uses, Key(l, u)) then Pressure(l, uses, k)
                                      else if Key(l, u) == k then {}
                                      else Pressure(l, uses, k) + {Key(l, u)}
  {
    assert (uses + [u])[..|uses|] == uses;
  }

  lemma LifeStep(l: Level, uses: seq<Use>, u: Use, k: u64)
    ensures Life(l, uses + [u], k) == if !Kept(l, uses + [u], k) then []
                                      else if Key(l, u) == k then Life(l, uses, k) + [u]
                                      else Life(l, uses, k)
    ensures !Kept(l, uses, k) ==> Life(l, uses, k) == []
  {
    assert (uses + [u])[..|uses|] == uses;
    assert Life(l, uses, k) + [] == Life(l, uses, k);
  }

  lemma VotesStep(uses: seq<Use>, u: Use, t: VoteType)
    ensures Votes(uses + [u], t) ==
            if u.AddVote? && u.voteType == t then
              Some(VoteSetAdd(if Votes(uses, t).Some? then Votes(uses, t).value else map[], u.key, u.signed).0)
            else Votes(uses, t)
  {
    assert (uses + [u])[..|uses|] == uses;
  }

  /** The write of one key moves every key as the sets say. */
  lemma WriteMoves<V>(c: Lru<V>, l: Level, uses: seq<Use>, u: Use, v: V, k: u64)
    requires Follows(c, l, uses) && (u.AddVote? || Key(l, u) in c.items)
    ensures var after := c.Put(Key(l, u), v);
            && (k in after.items <==> Kept(l, uses + [u], k))
            && (k in after.items ==> after.Newer(k) == Pressure(l, uses + [u], k))
  {
    hide Without, After, Lru.Put, Pressure, Added, Key;
    var w, after := Key(l, u), c.Put(Key(l, u), v);
    PutKeeps(c, w, v);
    PressureStep(l, uses, u, k);
    if k in c.items && k != w {
      NewerCount(c.order, k);
      NewerKnown(c.order, k);
      assert k in after.items ==> |after.Newer(k)| < 16 by {
        if k in after.items { NewerCount(after.order, k); }
      }
      if w !in c.items { PutEvicts(c, w, v, k); }
    } else if k in Added(l, uses) && k != w {
      SubsetSize(Pressure(l, uses, k), Pressure(l, uses + [u], k));
    }
  }

  lemma WriteFollows<V>(c: Lru<V>, l: Level, uses: seq<Use>, u: Use, v: V)
    requires Follows(c, l, uses) && (u.AddVote? || Key(l, u) in c.items)
    ensures Follows(c.Put(Key(l, u), v), l, uses + [u])
  {
    hide Lru.Put, Lru.Newer, Kept, Pressure;
    forall k { WriteMoves(c, l, uses, u, v, k); }
    PutKeeps(c, Key(l, u), v);
  }

  lemma MissFollows<V>(c: Lru<V>, l: Level, uses: seq<Use>, u: Use)
    requires Follows(c, l, uses) && u.GetVotes? && Key(l, u) !in c.items
    ensures Follows(c, l, uses + [u])
  {
    hide Lru.Newer, Pressure, Added, Key;
    forall k
      ensures Kept(l, uses + [u], k) == Kept(l, uses, k) && Pressure(l, uses + [u], k) == Pressure(l, uses, k)
    {
      PressureStep(l, uses, u, k);
    }
  }

  /** A read moves a key just as a write of its own value does. */
  lemma TouchIsPut<V>(c: Lru<V>, k: u64)
    requires k in c.items
    ensures c.Touch(k) == c.Put(k, c.items[k])
  {
    assert c.items[k := c.items[k]] == c.items;
  }

  // ---- the rounds of one height

  ghost predicate StepHolds(sc: StepCollector, uses: seq<Use>) {
    forall t :: StepGet(sc, t) == Votes(uses, t)
  }

  /** The collector of a height with these uses since its insertion. */
  ghost predicate RoundsHold(rc: RoundCollector, life: seq<Use>) {
    && Follows(rc, ByRound, life)
    && forall r | r in rc.items :: StepHolds(rc.items[r], Life(ByRound, life, r))
  }

  lemma RoundAddHolds(rc: RoundCollector, life: seq<Use>, u: Use)
    requires RoundsHold(rc, life) && u.AddVote?
    ensures RoundsHold(Inner(rc, u), life + [u])
  {
    hide Lru.Put, Kept, Life, StepGet, Votes;
    var sc := if u.round in rc.items then rc.items[u.round] else map[];
    var added := StepAdd(sc, u.voteType, u.key, u.signed).0;
    assert Inner(rc, u) == rc.Put(u.round, added);
    WriteFollows(rc, ByRound, life, u, added);
    PutKeeps(rc, u.round, added);
    forall r | r in Inner(rc, u).items ensures StepHolds(Inner(rc, u).items[r], Life(ByRound, life + [u], r)) {
      LifeStep(ByRound, life, u, r);
      if r == u.round {
        if r !in rc.items { NoLifeNoVotes(sc, life, r); }
        StepAddHolds(sc, Life(ByRound, life, r), u);
      }
    }
  }

  lemma NoLifeNoVotes(sc: StepCollector, life: seq<Use>, r: u64)
    requires sc == map[] && !Kept(ByRound, life, r)
    ensures StepHolds(sc, Life(ByRound, life, r))
  {
    hide Kept;
  }

  lemma StepAddHolds(sc: StepCollector, uses: seq<Use>, u: Use)
    requires StepHolds(sc, uses) && u.AddVote?
    ensures StepHolds(StepAdd(sc, u.voteType, u.key, u.signed).0, uses + [u])
  {
    hide Votes;
    forall t { VotesStep(uses, u, t); }
  }

  lemma RoundGetHolds(rc: RoundCollector, life: seq<Use>, u: Use)
    requires RoundsHold(rc, life) && u.GetVotes?
    ensures RoundsHold(Inner(rc, u), life + [u])
  {
    hide Lru.Put, Lru.Touch, Kept, Life, StepGet, Votes, StepHolds;
    assert Inner(rc, u) == rc.Touch(u.round);
    if u.round in rc.items {
      TouchIsPut(rc, u.round);
      WriteFollows(rc, ByRound, life, u, rc.items[u.round]);
    } else {
      MissFollows(rc, ByRound, life, u);
    }
    TouchKeeps(rc, u.round);
    forall r | r in rc.items ensures StepHolds(rc.items[r], Life(ByRound, life + [u], r)) {
      LifeStep(ByRound, life, u, r);
      if r == u.round { StepGetHolds(rc.items[r], Life(ByRound, life, r), u); }
    }
  }

  lemma StepGetHolds(sc: StepCollector, uses: seq<Use>, u: Use)
    requires StepHolds(sc, uses) && u.GetVotes?
    ensures StepHolds(sc, uses + [u])
  {
    hide Votes;
    forall t { VotesStep(uses, u, t); }
  }

  // ---- the whole index

  ghost predicate IndexHolds(st: VoteStore, uses: seq<Use>) {
    && Follows(st, ByHeight, uses)
    && forall h | h in st.items :: RoundsHold(st.items[h], Life(ByHeight, uses, h))
  }

  lemma IndexStep(st: VoteStore, uses: seq<Use>, u: Use)
    requires IndexHolds(st, uses)
    ensures IndexHolds(Apply(st, u), uses + [u])
  {
    hide Lru.Put, Inner, Apply, Kept, Life, RoundsHold;
    ApplyIs(st, u);
    var rc := CollectorOf(st, u.height);
    if u.AddVote? || u.height in st.items {
      var written := Inner(rc, u);
      WriteFollows(st, ByHeight, uses, u, written);
      PutKeeps(st, u.height, written);
      WrittenHolds(st, uses, u);
      forall h | h in Apply(st, u).items ensures RoundsHold(Apply(st, u).items[h], Life(ByHeight, uses + [u], h)) {
        LifeStep(ByHeight, uses, u, h);
      }
    } else {
      MissFollows(st, ByHeight, uses, u);
      forall h | h in st.items ensures RoundsHold(st.items[h], Life(ByHeight, uses + [u], h)) {
        LifeStep(ByHeight, uses, u, h);
      }
    }
  }

  lemma WrittenHolds(st: VoteStore, uses: seq<Use>, u: Use)
    requires IndexHolds(st, uses) && (u.AddVote? || u.height in st.items)
    ensures RoundsHold(Inner(CollectorOf(st, u.height), u), Life(ByHeight, uses, u.height) + [u])
  {
    hide Inner, Kept, Life, RoundsHold;
    var rc, life := CollectorOf(st, u.height), Life(ByHeight, uses, u.height);
    assert RoundsHold(rc, life) by {
      if u.height !in st.items {
        LifeStep(ByHeight, uses, u, u.height);
        EmptyHolds();
      }
    }
    if u.AddVote? { RoundAddHolds(rc, life, u); } else { RoundGetHolds(rc, life, u); }
  }

  lemma EmptyHolds()
    ensures RoundsHold(EmptyLru(), [])
  {
  }

  lemma EmptyIndexHolds()
    ensures IndexHolds(EmptyLru(), [])
  {
  }

  lemma BoundedStep(uses: seq<Use>, u: Use)
    ensures Bounded([]) == EmptyLru() && Bounded(uses + [u]) == Apply(Bounded(uses), u)
  {
    assert (uses + [u])[..|uses|] == uses;
  }

  lemma {:induction false} BoundedHolds(uses: seq<Use>)
    ensures IndexHolds(Bounded(uses), uses)
  {
    hide Apply, IndexHolds, Bounded;
    if uses == [] {
      BoundedStep([], GetVotes(0, 0, Prevote));
      EmptyIndexHolds();
    } else {
      var before, u := uses[..|uses| - 1], uses[|uses| - 1];
      assert uses == before + [u];
      BoundedHolds(before);
      BoundedStep(before, u);
      IndexStep(Bounded(before), before, u);
    }
  }

  /** A height is in the index exactly when it was added to and fewer than 16
      other heights have been used since its last use. */
  lemma HeightKeptIff(uses: seq<Use>, h: u64)
    ensures h in Bounded(uses).items <==> h in Added(ByHeight, uses) && |Pressure(ByHeight, uses, h)| < 16
  {
    hide Bounded, RoundsHold;
    BoundedHolds(uses);
  }

  /** A round of a kept height is in the index exactly when, since the height was
      last inserted, it was added to and fewer than 16 other rounds of the height
      have been used since its last use. */
  lemma RoundKeptIff(uses: seq<Use>, h: u64, r: u64)
    requires h in Bounded(uses).items
    ensures var life := Life(ByHeight, uses, h);
            r in Bounded(uses).items[h].items <==>
              r in Added(ByRound, life) && |Pressure(ByRound, life, r)| < 16
  {
    hide Bounded, Life, StepHolds;
    BoundedHolds(uses);
  }

  /** Every lookup, after every history: the slot answers with the votes added to it
      since its round was last inserted into its height, since that was last inserted
      -- the first under each key -- and with nothing if either is not kept. */
  lemma SlotExact(uses: seq<Use>, h: u64, r: u64, t: VoteType)
    ensures StoreGet(Bounded(uses), h, r, t).1 == Votes(Life(ByRound, Life(ByHeight, uses, h), r), t)
  {
    hide Bounded, Kept, Votes, Lru.Put, Lru.Touch;
    BoundedHolds(uses);
    var st, life := Bounded(uses), Life(ByHeight, uses, h);
    assert StoreGet(st, h, r, t).1 == Peek(st, h, r, t);
    if h in st.items && r in st.items[h].items {
      assert StepHolds(st.items[h].items[r], Life(ByRound, life, r));
    } else if h in st.items {
      NoLife(ByRound, life, r, t);
    } else {
      NoLife(ByHeight, uses, h, t);
      NoLife(ByRound, [], r, t);
    }
  }

  lemma NoLife(l: Level, uses: seq<Use>, k: u64, t: VoteType)
    requires !Kept(l, uses, k) || uses == []
    ensures Life(l, uses, k) == [] && Votes([], t) == None
  {
    hide Kept;
  }

  // ---- against an index that never forgets

  /** The uses of one slot's height and round. */
  function AtSlot(uses: seq<Use>, h: u64, r: u64): seq<Use> {
    if uses == [] then []
    else
      var last := uses[|uses| - 1];
      AtSlot(uses[..|uses| - 1], h, r) + if last.height == h && last.round == r then [last] else []
  }

  lemma AtSlotStep(uses: seq<Use>, u: Use, h: u64, r: u64)
    ensures AtSlot(uses + [u], h, r) ==
            if u.height == h && u.round == r then AtSlot(uses, h, r) + [u] else AtSlot(uses, h, r)
  {
    assert (uses + [u])[..|uses|] == uses;
    assert AtSlot(uses, h, r) + [] == AtSlot(uses, h, r);
  }

  lemma {:induction false} AtSlotSplits(a: seq<Use>, b: seq<Use>, h: u64, r: u64)
    ensures AtSlot(a + b, h, r) == AtSlot(a, h, r) + AtSlot(b, h, r)
  {
    if b == [] {
      assert a + b == a;
    } else {
      var init, last := b[..|b| - 1], b[|b| - 1];
      assert a + b == a + init + [last] && b == init + [last];
      AtSlotSplits(a, init, h, r);
      AtSlotStep(a + init, last, h, r);
      AtSlotStep(init, last, h, r);
      var x, y := AtSlot(a, h, r), AtSlot(init, h, r);
      assert x + y + [last] == x + (y + [last]);
      hide AtSlot;
    }
  }

  /** An unbounded index answers with the votes of all uses of the slot. */
  lemma {:induction false} UnboundedIsVotes(uses: seq<Use>, h: u64, r: u64, t: VoteType)
    ensures UnboundedGet(uses, h, r, t) == Votes(AtSlot(uses, h, r), t)
  {
    if uses != [] {
      var before, u := uses[..|uses| - 1], uses[|uses| - 1];
      assert uses == before + [u];
      UnboundedIsVotes(before, h, r, t);
      UnboundedStep(before, u, h, r, t);
      AtSlotStep(before, u, h, r);
      VotesStep(AtSlot(before, h, r), u, t);
      hide UnboundedGet, AtSlot, Votes;
    }
  }

  predicate SlotKept(uses: seq<Use>, h: u64, r: u64) {
    Kept(ByHeight, uses, h) && Kept(ByRound, Life(ByHeight, uses, h), r)
  }

  /** The uses of a slot since it was last inserted. */
  function SlotLife(uses: seq<Use>, h: u64, r: u64): seq<Use> {
    Life(ByRound, Life(ByHeight, uses, h), r)
  }

  /** How many uses came before that. */
  function Since(uses: seq<Use>, h: u64, r: u64): (n: nat)
    ensures n <= |uses|
  {
    if uses == [] || !SlotKept(uses, h, r) then |uses|
    else if SlotKept(uses[..|uses| - 1], h, r) then Since(uses[..|uses| - 1], h, r)
    else |uses| - 1
  }

  /** Only a use of the key itself can bring it in. */
  lemma KeptBefore(l: Level, uses: seq<Use>, u: Use, k: u64)
    requires Kept(l, uses + [u], k) && Key(l, u) != k
    ensures Kept(l, uses, k)
  {
    PressureStep(l, uses, u, k);
    hide Added, Pressure;
    SubsetSize(Pressure(l, uses, k), Pressure(l, uses + [u], k));
  }

  lemma SlotLifeStep(uses: seq<Use>, u: Use, h: u64, r: u64)
    ensures var all, here := uses + [u], u.height == h && u.round == r;
            && SlotLife(all, h, r) == (if !SlotKept(all, h, r) then []
                                       else if here then SlotLife(uses, h, r) + [u] else SlotLife(uses, h, r))
            && (!SlotKept(uses, h, r) ==> SlotLife(uses, h, r) == [])
            && (SlotKept(all, h, r) && !SlotKept(uses, h, r) ==> here)
  {
    var all, life := uses + [u], Life(ByHeight, uses, h);
    LifeStep(ByHeight, uses, u, h);
    LifeStep(ByRound, life, u, r);
    NeverInEmpty(r);
    if SlotKept(all, h, r) {
      if u.height != h {
        KeptBefore(ByHeight, uses, u, h);
      } else if u.round != r {
        KeptBefore(ByRound, life, u, r);
      }
    }
    hide Life, Kept;
  }

  lemma NeverInEmpty(r: u64)
    ensures !Kept(ByRound, [], r) && Life(ByRound, [], r) == []
  {
  }

  lemma SinceStep(uses: seq<Use>, u: Use, h: u64, r: u64)
    ensures Since(uses + [u], h, r) == if !SlotKept(uses + [u], h, r) then |uses| + 1
                                       else if SlotKept(uses, h, r) then Since(uses, h, r) else |uses|
  {
    assert (uses + [u])[..|uses|] == uses;
    hide SlotKept;
  }

  lemma SinceWithin(uses: seq<Use>, u: Use, n: nat)
    requires n <= |uses|
    ensures (uses + [u])[n..] == uses[n..] + [u]
  {
  }

  /** A slot's life is what its uses since its insertion are. */
  lemma {:induction false} LifeIsSince(uses: seq<Use>, h: u64, r: u64)
    ensures SlotLife(uses, h, r) == AtSlot(uses[Since(uses, h, r)..], h, r)
  {
    if uses == [] {
      NeverInEmpty(r);
    } else {
      hide SlotKept, SlotLife, AtSlot, Since;
      var before, u := uses[..|uses| - 1], uses[|uses| - 1];
      assert uses == before + [u];
      LifeIsSince(before, h, r);
      SlotLifeStep(before, u, h, r);
      SinceStep(before, u, h, r);
      if !SlotKept(uses, h, r) {
        NothingAtSlot(h, r);
      } else {
        var n := if SlotKept(before, h, r) then Since(before, h, r) else |before|;
        SinceWithin(before, u, n);
        AtSlotStep(before[n..], u, h, r);
        if n == |before| { NothingAtSlot(h, r); }
      }
    }
  }

  lemma NothingAtSlot(h: u64, r: u64)
    ensures AtSlot([], h, r) == []
  {
  }

  /** Adding a vote to what is found in either of two indexes. */
  lemma MergeAdd(late: VoteSet, early: VoteSet, b: BftVote, sv: SignedVote)
    ensures VoteSetAdd(late + early, b, sv).0 == VoteSetAdd(late, b, sv).0 + early
    ensures map[] + early == early
  {
  }

  lemma {:induction false} VotesJoin(a: seq<Use>, b: seq<Use>, t: VoteType)
    ensures Votes(a + b, t) ==
            if Votes(a, t).None? then Votes(b, t)
            else if Votes(b, t).None? then Votes(a, t)
            else Some(Votes(b, t).value + Votes(a, t).value)
  {
    if b == [] {
      assert a + b == a;
    } else {
      var init, u := b[..|b| - 1], b[|b| - 1];
      assert a + b == a + init + [u] && b == init + [u];
      VotesJoin(a, init, t);
      VotesStep(a + init, u, t);
      VotesStep(init, u, t);
      hide Votes, VoteSetAdd;
      if u.AddVote? && Votes(a, t).Some? {
        MergeAdd(if Votes(init, t).Some? then Votes(init, t).value else map[], Votes(a, t).value, u.key, u.signed);
      }
    }
  }

  /** Exactly when the bounded index answers as one that never forgets: what was in the
      slot before it was last inserted has come again since, each vote with the same
      signature first. */
  lemma AgreesIff(uses: seq<Use>, h: u64, r: u64, t: VoteType)
    ensures var got := StoreGet(Bounded(uses), h, r, t).1;
            var lost := UnboundedGet(uses[..Since(uses, h, r)], h, r, t);
            got == UnboundedGet(uses, h, r, t)
            <==> (lost.Some? ==>
                    got.Some? && forall b | b in lost.value :: b in got.value && got.value[b] == lost.value[b])
  {
    var n := Since(uses, h, r);
    var early, late := uses[..n], uses[n..];
    assert uses == early + late;
    SlotExact(uses, h, r, t);
    LifeIsSince(uses, h, r);
    UnboundedIsVotes(uses, h, r, t);
    UnboundedIsVotes(early, h, r, t);
    AtSlotSplits(early, late, h, r);
    VotesJoin(AtSlot(early, h, r), AtSlot(late, h, r), t);
    hide Bounded, UnboundedGet, StoreGet, Votes, AtSlot, Life, Since;
    var lost, got := UnboundedGet(early, h, r, t), StoreGet(Bounded(uses), h, r, t).1;
    if lost.Some? && got.Some? { SameUnderMerge(got.value, lost.value); }
  }

  lemma SameUnderMerge(got: VoteSet, lost: VoteSet)
    ensures got + lost == got <==> forall b | b in lost :: b in got && got[b] == lost[b]
  {
    if got + lost == got {
      forall b | b in lost ensures b in got && got[b] == lost[b] { assert (got + lost)[b] == lost[b]; }
    }
  }

  // ---- when nothing is ever lost

  predicate SlotAdded(uses: seq<Use>, h: u64, r: u64) {
    uses != [] &&
    var last := uses[|uses| - 1];
    SlotAdded(uses[..|uses| - 1], h, r) || (last.AddVote? && last.height == h && last.round == r)
  }

  /** From its first vote on, the slot has always been kept. */
  predicate NeverLost(uses: seq<Use>, h: u64, r: u64) {
    uses == [] ||
    (NeverLost(uses[..|uses| - 1], h, r) && (SlotAdded(uses, h, r) ==> SlotKept(uses, h, r)))
  }

  lemma {:induction false} NotAddedNoVotes(uses: seq<Use>, h: u64, r: u64, t: VoteType)
    requires !SlotAdded(uses, h, r)
    ensures Votes(AtSlot(uses, h, r), t) == None
  {
    if uses != [] {
      var before, u := uses[..|uses| - 1], uses[|uses| - 1];
      NotAddedNoVotes(before, h, r, t);
      assert uses == before + [u];
      AtSlotStep(before, u, h, r);
      VotesStep(AtSlot(before, h, r), u, t);
    }
  }

  lemma {:induction false} NeverLostKeepsAll(uses: seq<Use>, h: u64, r: u64, t: VoteType)
    requires NeverLost(uses, h, r)
    ensures Votes(SlotLife(uses, h, r), t) == Votes(AtSlot(uses, h, r), t)
  {
    if uses == [] {
      NeverInEmpty(r);
    } else {
      var before, u := uses[..|uses| - 1], uses[|uses| - 1];
      assert uses == before + [u];
      NeverLostKeepsAll(before, h, r, t);
      SlotLifeStep(before, u, h, r);
      AtSlotStep(before, u, h, r);
      if !SlotKept(uses, h, r) {
        NotAddedNoVotes(uses, h, r, t);
        assert Votes([], t) == None;
      }
      VotesStep(SlotLife(before, h, r), u, t);
      VotesStep(AtSlot(before, h, r), u, t);
      hide SlotLife, SlotKept, AtSlot, Votes, NeverLost, VoteSetAdd;
    }
  }

  /** A slot that was never lost answers every lookup as the unbounded index does. */
  lemma SlotSurvives(uses: seq<Use>, h: u64, r: u64, t: VoteType)
    requires NeverLost(uses, h, r)
    ensures StoreGet(Bounded(uses), h, r, t).1 == UnboundedGet(uses, h, r, t)
  {
    SlotExact(uses, h, r, t);
    UnboundedIsVotes(uses, h, r, t);
    NeverLostKeepsAll(uses, h, r, t);
  }

  lemma {:induction false} PressureAdded(l: Level, uses: seq<Use>, k: u64)
    ensures Pressure(l, uses, k) <= Added(l, uses) - {k}
  {
    if uses != [] { PressureAdded(l, uses[..|uses| - 1], k); }
  }

  /** With at most 16 keys ever added, none of them is lost. */
  lemma FewKept(l: Level, uses: seq<Use>, k: u64)
    requires |Added(l, uses)| <= 16 && k in Added(l, uses)
    ensures Kept(l, uses, k)
  {
    PressureAdded(l, uses, k);
    SubsetSize(Pressure(l, uses, k), Added(l, uses) - {k});
  }

  function AtHeight(uses: seq<Use>, h: u64): seq<Use> {
    if uses == [] then []
    else
      var last := uses[|uses| - 1];
      AtHeight(uses[..|uses| - 1], h) + if last.height == h then [last] else []
  }

  lemma AtHeightStep(uses: seq<Use>, u: Use, h: u64)
    ensures AtHeight(uses + [u], h) == if u.height == h then AtHeight(uses, h) + [u] else AtHeight(uses, h)
  {
    assert (uses + [u])[..|uses|] == uses;
    assert AtHeight(uses, h) + [] == AtHeight(uses, h);
  }

  lemma AddedStep(l: Level, uses: seq<Use>, u: Use)
    ensures Added(l, uses + [u]) == Added(l, uses) + if u.AddVote? then {Key(l, u)} else {}
  {
    assert (uses + [u])[..|uses|] == uses;
  }

  /** Fewer uses have added to no more heights and rounds. */
  lemma FewBefore(uses: seq<Use>, u: Use, h: u64)
    ensures |Added(ByHeight, uses)| <= |Added(ByHeight, uses + [u])|
    ensures |Added(ByRound, AtHeight(uses, h))| <= |Added(ByRound, AtHeight(uses + [u], h))|
  {
    AddedStep(ByHeight, uses, u);
    AddedStep(ByRound, AtHeight(uses, h), u);
    AtHeightStep(uses, u, h);
    hide Added, AtHeight;
    SubsetSize(Added(ByHeight, uses), Added(ByHeight, uses + [u]));
    SubsetSize(Added(ByRound, AtHeight(uses, h)), Added(ByRound, AtHeight(uses + [u], h)));
  }

  /** The rounds in a height's life are among those ever added there. */
  lemma {:induction false} RoundsOfLife(uses: seq<Use>, h: u64)
    ensures Added(ByRound, Life(ByHeight, uses, h)) <= Added(ByRound, AtHeight(uses, h))
  {
    if uses != [] {
      var before, u := uses[..|uses| - 1], uses[|uses| - 1];
      assert uses == before + [u];
      RoundsOfLife(before, h);
      LifeStep(ByHeight, before, u, h);
      AtHeightStep(before, u, h);
      AddedStep(ByRound, Life(ByHeight, before, h), u);
      AddedStep(ByRound, AtHeight(before, h), u);
      assert Added(ByRound, []) == {};
      hide Life, AtHeight, Added, Kept;
    }
  }

  /** A height that is not lost keeps in its life all rounds ever added there. */
  lemma {:induction false} AddedInLife(uses: seq<Use>, h: u64, r: u64)
    requires |Added(ByHeight, uses)| <= 16 && SlotAdded(uses, h, r)
    ensures h in Added(ByHeight, uses) && r in Added(ByRound, Life(ByHeight, uses, h))
  {
    var before, u := uses[..|uses| - 1], uses[|uses| - 1];
    assert uses == before + [u];
    AddedStep(ByHeight, before, u);
    FewBefore(before, u, h);
    if SlotAdded(before, h, r) { AddedInLife(before, h, r); }
    FewKept(ByHeight, uses, h);
    LifeStep(ByHeight, before, u, h);
    AddedStep(ByRound, Life(ByHeight, before, h), u);
    hide Life, Added, Kept;
  }

  lemma {:induction false} FewNeverLost(uses: seq<Use>, h: u64, r: u64)
    requires |Added(ByHeight, uses)| <= 16 && |Added(ByRound, AtHeight(uses, h))| <= 16
    ensures NeverLost(uses, h, r)
  {
    if uses != [] {
      var before, u := uses[..|uses| - 1], uses[|uses| - 1];
      assert uses == before + [u];
      FewBefore(before, u, h);
      hide Added, Life, AtHeight, Kept, SlotAdded;
      FewNeverLost(before, h, r);
      if SlotAdded(uses, h, r) {
        AddedInLife(uses, h, r);
        FewKept(ByHeight, uses, h);
        RoundsOfLife(uses, h);
        SubsetSize(Added(ByRound, Life(ByHeight, uses, h)), Added(ByRound, AtHeight(uses, h)));
        FewKept(ByRound, Life(ByHeight, uses, h), r);
      }
    }
  }

  /** With at most 16 heights added to, and at most 16 rounds at the height asked
      about, the index is indistinguishable from the unbounded one. */
  lemma RefinesUnbounded(uses: seq<Use>, h: u64, r: u64, t: VoteType)
    requires |Added(ByHeight, uses)| <= 16 && |Added(ByRound, AtHeight(uses, h))| <= 16
    ensures StoreGet(Bounded(uses), h, r, t).1 == UnboundedGet(uses, h, r, t)
  {
    FewNeverLost(uses, h, r);
    SlotSurvives(uses, h, r, t);
  }
}
