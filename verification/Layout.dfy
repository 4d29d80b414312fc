/** The formats byte by byte and field by field, and what a signature binds. */
module Layout {
  import opened Prelude
  import opened Digits
  import opened ByteOrder
  import opened Types
  import opened Env
  import opened Codec
  import Framing
  import Wal

  // ---- digits

  lemma {:induction false} PowSplits(k: nat)
    ensures Pow256(k + 1) == 256 * Pow256(k)
  {
  }

  lemma Regroup(q: nat, p: nat, r: nat, d: nat)
    requires r < p && d < 256
    ensures 256 * (q * p + r) + d == q * (256 * p) + (r * 256 + d) && r * 256 + d < 256 * p
  {
    assert q * (256 * p) == 256 * (q * p);
  }

  /** A quotient of a quotient. */
  lemma {:induction false} DivDiv(n: nat, k: nat)
    ensures n / 256 / Pow256(k) == n / Pow256(k + 1)
  {
    var p := Pow256(k);
    var q, r := n / 256 / p, n / 256 % p;
    assert n / 256 == q * p + r && n == 256 * (n / 256) + n % 256;
    Regroup(q, p, r, n % 256);
    DivisionUnique(n, q, r * 256 + n % 256, 256 * p);
  }

  /** Byte `i` of `k` big-endian digits weighs 256 to the k - 1 - i. */
  lemma {:induction false} BigEndianBytes(n: nat, k: nat, i: nat)
    requires i < k
    ensures BigEndian(n, k)[i] == n / Pow256(k - 1 - i) % 256
  {
    if i < k - 1 {
      BigEndianBytes(n / 256, k - 1, i);
      DivDiv(n, k - 2 - i);
    }
  }

  /** Byte `i` of little-endian digits weighs 256 to the i. */
  lemma {:induction false} LittleEndianBytes(n: nat, k: nat, i: nat)
    requires i < k
    ensures LittleEndian(n, k)[i] == n / Pow256(i) % 256
  {
    if i > 0 {
      LittleEndianBytes(n / 256, k - 1, i - 1);
      DivDiv(n, i - 1);
    }
  }

  // ---- frames and records

  lemma ThreeParts(mark: Bytes, first: Bytes, second: Bytes)
    ensures var e := mark + first + second;
            e[..|mark|] == mark && e[|mark|..|mark| + |first|] == first && e[|mark| + |first|..] == second
  {
  }

  lemma SmallRemainder(x: nat, n: nat)
    requires x < n
    ensures x % n == x
  {
    DivisionUnique(x, 0, x, n);
  }

  lemma CombinedParts(first: Bytes, second: Bytes)
    requires |first| < U64_BOUND
    ensures Framing.Combined(first, second) == BigEndian(|first|, 8) + first + second
  {
    hide BigEndian;
    SmallRemainder(|first|, U64_BOUND);
  }

  /** Eight bytes of big-endian length of the first part, then both parts. */
  lemma CombinedLayout(first: Bytes, second: Bytes, i: nat)
    requires |first| < 0x1_0000_0000_0000_0000
    ensures var e := Framing.Combined(first, second);
            && |e| == 8 + |first| + |second|
            && (i < 8 ==> e[i] == |first| / Pow256(7 - i) % 256)
            && e[8..8 + |first|] == first && e[8 + |first|..] == second
  {
    hide BigEndian, Pow256, Framing.Combined;
    if i < 8 { BigEndianBytes(|first|, 8, i); }
    CombinedParts(first, second);
    ThreeParts(BigEndian(|first|, 8), first, second);
  }

  /** Eight bytes of big-endian height, then the hash and the block combined. */
  lemma BlockLayout(height: u64, block: Bytes, hash: Bytes, i: nat)
    ensures var e := Framing.BlockFrame(height, block, hash);
            && |e| >= 8 && (i < 8 ==> e[i] == height / Pow256(7 - i) % 256)
            && e[8..] == Framing.Combined(hash, block)
  {
    if i < 8 { BigEndianBytes(height, 8, i); }
    hide BigEndian, Pow256, Framing.Combined;
  }

  lemma RecordParts(r: Wal.Record)
    requires |r.body| < U32_BOUND
    ensures Wal.Frame(r) == LittleEndian(|r.body|, 4) + [r.kind] + r.body
  {
    hide LittleEndian;
    assert |r.body| % U32_BOUND == |r.body|;
  }

  /** Four bytes of little-endian length, the type byte, the body. */
  lemma RecordLayout(r: Wal.Record, i: nat)
    requires |r.body| < 0x1_0000_0000
    ensures var e := Wal.Frame(r);
            && |e| == 5 + |r.body|
            && (i < 4 ==> e[i] == |r.body| / Pow256(i) % 256)
            && e[4] == r.kind && e[5..] == r.body
  {
    hide LittleEndian, Pow256, Wal.Frame;
    if i < 4 { LittleEndianBytes(|r.body|, 4, i); }
    RecordParts(r);
    ThreeParts(LittleEndian(|r.body|, 4), [r.kind], r.body);
  }

  // ---- items

  /** The item of a number: its big-endian digits without leading zeros. */
  ghost predicate IsNumber(i: Item, n: nat) {
    i.Str? && BigValue(i.bytes) == n && (i.bytes != [] ==> i.bytes[0] != 0)
  }

  lemma NumberLayout(n: u64)
    ensures IsNumber(IntItem(n), n)
  {
    PowersOf256();
    ShortestValue(n, 8);
  }

  lemma VoteLayout(v: Vote)
    ensures var i := VoteItem(v);
            && i.List? && |i.items| == 5
            && IsNumber(i.items[0], if v.voteType == Prevote then 0 else 1)
            && IsNumber(i.items[1], v.height) && IsNumber(i.items[2], v.round)
            && i.items[3] == Str(v.proposal) && i.items[4] == Str(v.voter)
  {
    hide IntItem, IsNumber;
    NumberLayout(v.height);
    NumberLayout(v.round);
    NumberLayout(0);
    NumberLayout(1);
  }

  lemma SignedVoteLayout(sv: SignedVote)
    ensures SignedVoteItem(sv).List? && SignedVoteItem(sv).items == [VoteItem(sv.vote), Str(sv.signature)]
  {
  }

  /** Addresses in strictly ascending order, all and only those that have voted, and
      their signatures in the same order. */
  lemma ProofLayout(p: Proof)
    ensures var i := ProofItem(p);
            && i.List? && |i.items| == 5
            && IsNumber(i.items[0], p.height) && IsNumber(i.items[1], p.round) && i.items[2] == Str(p.blockHash)
            && i.items[3].List? && i.items[4].List?
            && var keys := Ascending(p.votes.Keys);
            && StrictlySorted(keys) && (forall a :: a in keys <==> a in p.votes)
            && |i.items[3].items| == |i.items[4].items| == |keys|
            && forall k | 0 <= k < |keys| ::
                 && keys[k] in p.votes
                 && i.items[3].items[k] == Str(keys[k]) && i.items[4].items[k] == Str(p.votes[keys[k]])
  {
    hide IntItem, IsNumber, Ascending, StrictlySorted;
    NumberLayout(p.height);
    NumberLayout(p.round);
    AscendingSorted(p.votes.Keys);
    var keys := Ascending(p.votes.Keys);
    forall k | 0 <= k < |keys| ensures keys[k] in p.votes { assert keys[k] in keys; }
  }

  lemma {:induction false} SignedVotesLayout(votes: seq<SignedVote>, k: nat)
    ensures |SignedVoteItems(votes)| == |votes|
    ensures k < |votes| ==> SignedVoteItems(votes)[k] == SignedVoteItem(votes[k])
  {
    if votes != [] { SignedVotesLayout(votes[1..], if k > 0 then k - 1 else 0); }
  }

  lemma ProposalLayout(p: Proposal, k: nat)
    ensures var i := ProposalItem(p);
            && i.List? && |i.items| == 7
            && IsNumber(i.items[0], p.height) && IsNumber(i.items[1], p.round)
            && i.items[2] == Str(p.hash) && i.items[3] == ProofItem(p.proof)
            && i.items[4].List? && |i.items[4].items| == (if p.lockRound.Some? then 1 else 0)
            && (p.lockRound.Some? ==> IsNumber(i.items[4].items[0], p.lockRound.value))
            && i.items[5].List? && |i.items[5].items| == |p.lockVotes|
            && (k < |p.lockVotes| ==> i.items[5].items[k] == SignedVoteItem(p.lockVotes[k]))
            && i.items[6] == Str(p.proposer)
  {
    hide IntItem, IsNumber, ProofItem, SignedVoteItem, SignedVoteItems;
    NumberLayout(p.height);
    NumberLayout(p.round);
    if p.lockRound.Some? { NumberLayout(p.lockRound.value); }
    SignedVotesLayout(p.lockVotes, k);
  }

  lemma SignedProposalLayout(sp: SignedProposal)
    ensures var i := SignedProposalItem(sp); i.List? && i.items == [ProposalItem(sp.proposal), Str(sp.signature)]
  {
  }

  // ---- what a signature binds

  ghost predicate Collisionless(env: Env) {
    && (forall x, y :: env.hash(x) == env.hash(y) ==> x == y)
    && (forall i, j :: env.rlp(i) == env.rlp(j) ==> i == j)
  }

  lemma ItemsDiffer(v: Vote, p: Proposal)
    ensures VoteItem(v) != ProposalItem(p)
  {
    hide IntItem, ProofItem, SignedVoteItems;
    assert |VoteItem(v).items| == 5 && |ProposalItem(p).items| == 7;
  }

  /** Where hash and RLP are injective, what is signed determines the vote or the
      proposal in all its fields, and no vote is ever mistaken for a proposal. */
  lemma DigestsBind(env: Env, v: Vote, w: Vote, p: Proposal, q: Proposal)
    requires Collisionless(env)
    ensures env.VoteDigest(v) == env.VoteDigest(w) ==> v == w
    ensures env.ProposalDigest(p) == env.ProposalDigest(q) ==> p == q
    ensures env.VoteDigest(v) != env.ProposalDigest(p)
  {
    hide DecodeVote, DecodeProposal, VoteItem, ProposalItem, IsNumber;
    VoteRoundTrip(v);
    VoteRoundTrip(w);
    ProposalRoundTrip(p);
    ProposalRoundTrip(q);
    ItemsDiffer(v, p);
  }
}
