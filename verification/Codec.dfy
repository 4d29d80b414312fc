/** Encoding of wire messages as RLP items and back (src/types.rs). The items
    stand for RLP byte strings as in Appendix B of the Ethereum Yellow Paper:
    integers are big-endian without leading zeros, an option is a list of at
    most one item. */
module Codec {
  import opened Prelude
  import opened Digits
  import opened ByteOrder
  import opened Types

  datatype Item = Str(bytes: Bytes) | List(items: seq<Item>)

  // ---- integers, byte strings and options

  function IntItem(n: nat): Item { Str(Shortest(n)) }

  function DecodeInt(i: Item, width: nat): (r: Result<nat>)
    ensures r.Success? ==> r.value < Pow256(width)
  {
    if i.List? || |i.bytes| > width || (i.bytes != [] && i.bytes[0] == 0) then Failure(DecodeErr)
    else
      BigValueDigits(i.bytes);
      PowersGrow(|i.bytes|, width);
      Success(BigValue(i.bytes))
  }

  function DecodeU64(i: Item): Result<u64> {
    PowersOf256();
    var n :- DecodeInt(i, 8);
    Success(n)
  }

  function DecodeBytes(i: Item): Result<Bytes> {
    if i.Str? then Success(i.bytes) else Failure(DecodeErr)
  }

  function OptionItem(o: Option<u64>): Item {
    List(if o.Some? then [IntItem(o.value)] else [])
  }

  function DecodeOption(i: Item): Result<Option<u64>> {
    if i.Str? || |i.items| > 1 then Failure(DecodeErr)
    else if |i.items| == 0 then Success(None)
    else
      var n :- DecodeU64(i.items[0]);
      Success(Some(n))
  }

  function StrItems(bs: seq<Bytes>): (items: seq<Item>)
    ensures |items| == |bs|
    ensures forall k :: 0 <= k < |bs| ==> items[k] == Str(bs[k])
  {
    seq(|bs|, k requires 0 <= k < |bs| => Str(bs[k]))
  }

  function DecodeBytesList(items: seq<Item>): Result<seq<Bytes>> {
    if items == [] then Success([])
    else
      var head :- DecodeBytes(items[0]);
      var tail :- DecodeBytesList(items[1..]);
      Success([head] + tail)
  }

  // ---- votes

  function VoteTypeByte(t: VoteType): nat { if t.Prevote? then 0 else 1 }

  /** A vote-type byte above one reaches `panic!` in `VoteType::from`. */
  function DecodeVoteType(i: Item): Result<VoteType> {
    var n :- DecodeInt(i, 1);
    if n == 0 then Success(Prevote) else if n == 1 then Success(Precommit) else Failure(Panicked)
  }

  function VoteItem(v: Vote): Item {
    List([IntItem(VoteTypeByte(v.voteType)), IntItem(v.height), IntItem(v.round), Str(v.proposal), Str(v.voter)])
  }

  function DecodeVote(i: Item): Result<Vote> {
    if i.Str? || |i.items| != 5 then Failure(DecodeErr)
    else
      var voteType :- DecodeVoteType(i.items[0]);
      var height :- DecodeU64(i.items[1]);
      var round :- DecodeU64(i.items[2]);
      var proposal :- DecodeBytes(i.items[3]);
      var voter :- DecodeBytes(i.items[4]);
      Success(Vote(voteType, height, round, proposal, voter))
  }

  function SignedVoteItem(sv: SignedVote): Item {
    List([VoteItem(sv.vote), Str(sv.signature)])
  }

  function DecodeSignedVote(i: Item): Result<SignedVote> {
    if i.Str? || |i.items| != 2 then Failure(DecodeErr)
    else
      var vote :- DecodeVote(i.items[0]);
      var signature :- DecodeBytes(i.items[1]);
      Success(SignedVote(vote, signature))
  }

  function SignedVoteItems(votes: seq<SignedVote>): seq<Item> {
    if votes == [] then [] else [SignedVoteItem(votes[0])] + SignedVoteItems(votes[1..])
  }

  function DecodeSignedVotes(items: seq<Item>): Result<seq<SignedVote>> {
    if items == [] then Success([])
    else
      var head :- DecodeSignedVote(items[0]);
      var tail :- DecodeSignedVotes(items[1..]);
      Success([head] + tail)
  }

  // ---- proofs

  function ValuesAt(m: map<Address, Signature>, keys: seq<Address>): (values: seq<Signature>)
    requires forall k :: k in keys ==> k in m
    ensures |values| == |keys|
    ensures forall i :: 0 <= i < |keys| ==> values[i] == m[keys[i]]
  {
    seq(|keys|, i requires 0 <= i < |keys| => m[keys[i]])
  }

  function ProofItem(p: Proof): Item {
    var keys := Ascending(p.votes.Keys);
    List([IntItem(p.height), IntItem(p.round), Str(p.blockHash),
          List(StrItems(keys)), List(StrItems(ValuesAt(p.votes, keys)))])
  }

  /** Collecting the zipped lists into a map: a later pair wins. */
  function ZipMap(keys: seq<Address>, values: seq<Signature>): map<Address, Signature>
    requires |keys| == |values|
  {
    if keys == [] then map[]
    else ZipMap(keys[..|keys| - 1], values[..|keys| - 1])[keys[|keys| - 1] := values[|keys| - 1]]
  }

  function DecodeProof(i: Item): Result<Proof> {
    if i.Str? || |i.items| != 5 then Failure(DecodeErr)
    else
      var height :- DecodeU64(i.items[0]);
      var round :- DecodeU64(i.items[1]);
      var blockHash :- DecodeBytes(i.items[2]);
      if i.items[3].Str? || i.items[4].Str? then Failure(DecodeErr)
      else
        var keys :- DecodeBytesList(i.items[3].items);
        var values :- DecodeBytesList(i.items[4].items);
        if |keys| != |values| then Failure(DecodeErr)
        else Success(Proof(blockHash, height, round, ZipMap(keys, values)))
  }

  // ---- the encoder's own path: collect in hash order, sort, split

  type Entry = (Address, Signature)

  predicate EntryLe(a: Entry, b: Entry) { Lt(a.0, b.0) || (a.0 == b.0 && Le(a.1, b.1)) }

  function InsertEntry(e: Entry, sorted: seq<Entry>): seq<Entry> {
    if sorted == [] || EntryLe(e, sorted[0]) then [e] + sorted
    else [sorted[0]] + InsertEntry(e, sorted[1..])
  }

  function SortEntries(es: seq<Entry>): seq<Entry> {
    if es == [] then [] else InsertEntry(es[0], SortEntries(es[1..]))
  }

  function KeysOf(es: seq<Entry>): (keys: seq<Address>)
    ensures |keys| == |es| && forall i :: 0 <= i < |es| ==> keys[i] == es[i].0
  {
    seq(|es|, i requires 0 <= i < |es| => es[i].0)
  }

  ghost predicate DistinctKeys(es: seq<Entry>) {
    forall i, j :: 0 <= i < j < |es| ==> es[i].0 != es[j].0
  }

  /** `order` is one of the orders in which iterating `m` can yield its entries. */
  ghost predicate Enumerates(order: seq<Entry>, m: map<Address, Signature>) {
    && DistinctKeys(order)
    && forall e: Entry :: e in order <==> e.0 in m && m[e.0] == e.1
  }

  lemma PrependKeepsOrder(e: Entry, es: seq<Entry>)
    requires StrictlySorted(KeysOf(es)) && forall x :: x in es ==> Lt(e.0, x.0)
    ensures StrictlySorted(KeysOf([e] + es))
  {
    var keys, r := KeysOf(es), KeysOf([e] + es);
    forall i, j | 0 <= i < j < |r| ensures Lt(r[i], r[j]) {
      assert es[j - 1] in es;
      if i > 0 { assert Lt(keys[i - 1], keys[j - 1]); }
    }
  }

  lemma {:induction false} InsertKeepsOrder(e: Entry, es: seq<Entry>)
    requires StrictlySorted(KeysOf(es)) && forall x :: x in es ==> x.0 != e.0
    ensures StrictlySorted(KeysOf(InsertEntry(e, es)))
    ensures forall x :: x in InsertEntry(e, es) <==> x == e || x in es
  {
    if es == [] {
      PrependKeepsOrder(e, es);
    } else {
      var keys := KeysOf(es);
      assert es[0] in es;
      LeTotal(e.0, es[0].0);
      forall x | x in es[1..] ensures Lt(es[0].0, x.0) {
        var k :| 0 <= k < |es[1..]| && es[1..][k] == x;
        assert Lt(keys[0], keys[k + 1]);
      }
      if EntryLe(e, es[0]) {
        forall x | x in es ensures Lt(e.0, x.0) {
          if x != es[0] { assert x in es[1..]; LeTransitive(e.0, es[0].0, x.0); }
        }
        PrependKeepsOrder(e, es);
      } else {
        assert KeysOf(es[1..]) == keys[1..];
        InsertKeepsOrder(e, es[1..]);
        PrependKeepsOrder(es[0], InsertEntry(e, es[1..]));
      }
    }
  }

  lemma {:induction false} SortEntriesSorts(es: seq<Entry>)
    requires DistinctKeys(es)
    ensures StrictlySorted(KeysOf(SortEntries(es)))
    ensures forall e :: e in SortEntries(es) <==> e in es
  {
    if es != [] {
      assert es == [es[0]] + es[1..];
      SortEntriesSorts(es[1..]);
      forall x | x in es[1..] ensures x.0 != es[0].0 {
        var k :| 0 <= k < |es[1..]| && es[1..][k] == x;
        assert es[k + 1] == x;
      }
      InsertKeepsOrder(es[0], SortEntries(es[1..]));
    }
  }

  /** Sorting any iteration order of the map gives its ascending enumeration. */
  lemma SortCanonical(order: seq<Entry>, m: map<Address, Signature>)
    requires Enumerates(order, m)
    ensures KeysOf(SortEntries(order)) == Ascending(m.Keys)
    ensures forall i :: 0 <= i < |SortEntries(order)| ==>
              SortEntries(order)[i].0 in m && SortEntries(order)[i].1 == m[SortEntries(order)[i].0]
  {
    SortEntriesSorts(order);
    var sorted := SortEntries(order);
    forall i | 0 <= i < |sorted| ensures sorted[i].0 in m && sorted[i].1 == m[sorted[i].0] {
      assert sorted[i] in sorted;
    }
    forall k ensures k in KeysOf(sorted) <==> k in m.Keys {
      if k in m.Keys {
        var e: Entry := (k, m[k]);
        assert e in order;
        var i :| 0 <= i < |sorted| && sorted[i] == e;
        assert KeysOf(sorted)[i] == k;
      }
    }
    AscendingUnique(KeysOf(sorted), m.Keys);
  }

  /** The encoder yields the same item for every iteration order of the hash map. */
  method EncodeProof(p: Proof, order: seq<Entry>) returns (item: Item)
    requires Enumerates(order, p.votes)
    ensures item == ProofItem(p)
  {
    hide SortEntries, IntItem, Ascending, Lt;
    var keyValues := SortEntries(order);
    SortCanonical(order, p.votes);
    var keyList: seq<Address>, valueList: seq<Signature> := [], [];
    for i := 0 to |keyValues|
      invariant keyList == KeysOf(keyValues)[..i]
      invariant |valueList| == i && forall j :: 0 <= j < i ==> valueList[j] == keyValues[j].1
    {
      keyList := keyList + [keyValues[i].0];
      valueList := valueList + [keyValues[i].1];
    }
    assert keyList == Ascending(p.votes.Keys);
    assert valueList == ValuesAt(p.votes, keyList);
    item := List([IntItem(p.height), IntItem(p.round), Str(p.blockHash),
                  List(StrItems(keyList)), List(StrItems(valueList))]);
  }

  // ---- proposals

  function ProposalItem(p: Proposal): Item {
    List([IntItem(p.height), IntItem(p.round), Str(p.hash), ProofItem(p.proof),
          OptionItem(p.lockRound), List(SignedVoteItems(p.lockVotes)), Str(p.proposer)])
  }

  function DecodeProposal(i: Item): Result<Proposal> {
    if i.Str? || |i.items| != 7 then Failure(DecodeErr)
    else
      var height :- DecodeU64(i.items[0]);
      var round :- DecodeU64(i.items[1]);
      var hash :- DecodeBytes(i.items[2]);
      var proof :- DecodeProof(i.items[3]);
      var lockRound :- DecodeOption(i.items[4]);
      if i.items[5].Str? then Failure(DecodeErr)
      else
        var lockVotes :- DecodeSignedVotes(i.items[5].items);
        var proposer :- DecodeBytes(i.items[6]);
        Success(Proposal(height, round, hash, proof, lockRound, lockVotes, proposer))
  }

  function SignedProposalItem(sp: SignedProposal): Item {
    List([ProposalItem(sp.proposal), Str(sp.signature)])
  }

  function DecodeSignedProposal(i: Item): Result<SignedProposal> {
    if i.Str? || |i.items| != 2 then Failure(DecodeErr)
    else
      var proposal :- DecodeProposal(i.items[0]);
      var signature :- DecodeBytes(i.items[1]);
      Success(SignedProposal(proposal, signature))
  }

  // ---- decode after encode is the identity

  lemma {:induction false} PowersGrow(j: nat, k: nat)
    requires j <= k
    ensures Pow256(j) <= Pow256(k)
  {
    if j < k { PowersGrow(j, k - 1); }
  }

  lemma IntRoundTrip(n: nat, width: nat)
    requires n < Pow256(width)
    ensures DecodeInt(IntItem(n), width) == Success(n)
  {
    ShortestValue(n, width);
  }

  lemma U64RoundTrip(n: u64)
    ensures DecodeU64(IntItem(n)) == Success(n)
  {
    PowersOf256();
    IntRoundTrip(n, 8);
  }

  lemma OptionRoundTrip(o: Option<u64>)
    ensures DecodeOption(OptionItem(o)) == Success(o)
  {
    if o.Some? { U64RoundTrip(o.value); }
  }

  lemma {:induction false} BytesListRoundTrip(bs: seq<Bytes>)
    ensures DecodeBytesList(StrItems(bs)) == Success(bs)
  {
    if bs != [] {
      assert StrItems(bs)[1..] == StrItems(bs[1..]);
      BytesListRoundTrip(bs[1..]);
      assert bs == [bs[0]] + bs[1..];
    }
  }

  lemma VoteTypeRoundTrip(t: VoteType)
    ensures DecodeVoteType(IntItem(VoteTypeByte(t))) == Success(t)
  {
    var n := VoteTypeByte(t);
    assert Pow256(1) == 256 * Pow256(0);
    IntRoundTrip(n, 1);
  }

  lemma VoteRoundTrip(v: Vote)
    ensures DecodeVote(VoteItem(v)) == Success(v)
  {
    hide DecodeU64, IntItem, DecodeVoteType;
    var items := VoteItem(v).items;
    assert DecodeVoteType(items[0]) == Success(v.voteType) by { VoteTypeRoundTrip(v.voteType); }
    assert DecodeU64(items[1]) == Success(v.height) by { U64RoundTrip(v.height); }
    assert DecodeU64(items[2]) == Success(v.round) by { U64RoundTrip(v.round); }
  }

  lemma SignedVoteRoundTrip(sv: SignedVote)
    ensures DecodeSignedVote(SignedVoteItem(sv)) == Success(sv)
  {
    VoteRoundTrip(sv.vote);
  }

  lemma {:induction false} SignedVotesRoundTrip(votes: seq<SignedVote>)
    ensures DecodeSignedVotes(SignedVoteItems(votes)) == Success(votes)
  {
    if votes != [] {
      SignedVoteRoundTrip(votes[0]);
      SignedVotesRoundTrip(votes[1..]);
      assert votes == [votes[0]] + votes[1..];
    }
  }

  lemma {:induction false} ZipMapRestricts(m: map<Address, Signature>, keys: seq<Address>)
    requires forall k :: k in keys ==> k in m
    ensures var z := ZipMap(keys, ValuesAt(m, keys));
            z.Keys == (set k | k in keys) && forall k :: k in keys ==> z[k] == m[k]
  {
    if keys != [] {
      var init := keys[..|keys| - 1];
      assert ValuesAt(m, keys)[..|keys| - 1] == ValuesAt(m, init);
      assert keys == init + [keys[|keys| - 1]];
      ZipMapRestricts(m, init);
    }
  }

  lemma ProofRoundTrip(p: Proof)
    ensures DecodeProof(ProofItem(p)) == Success(p)
  {
    hide DecodeU64, IntItem, DecodeBytesList, ZipMap;
    var keys := Ascending(p.votes.Keys);
    var values, items := ValuesAt(p.votes, keys), ProofItem(p).items;
    assert DecodeU64(items[0]) == Success(p.height) by { U64RoundTrip(p.height); }
    assert DecodeU64(items[1]) == Success(p.round) by { U64RoundTrip(p.round); }
    assert DecodeBytesList(items[3].items) == Success(keys) by { BytesListRoundTrip(keys); }
    assert DecodeBytesList(items[4].items) == Success(values) by { BytesListRoundTrip(values); }
    ZipMapRestricts(p.votes, keys);
    assert ZipMap(keys, values) == p.votes;
  }

  lemma ProposalRoundTrip(p: Proposal)
    ensures DecodeProposal(ProposalItem(p)) == Success(p)
  {
    hide DecodeU64, IntItem, DecodeProof, ProofItem, DecodeSignedVotes, SignedVoteItems, DecodeOption, OptionItem;
    var items := ProposalItem(p).items;
    assert DecodeU64(items[0]) == Success(p.height) by { U64RoundTrip(p.height); }
    assert DecodeU64(items[1]) == Success(p.round) by { U64RoundTrip(p.round); }
    assert DecodeProof(items[3]) == Success(p.proof) by { ProofRoundTrip(p.proof); }
    assert DecodeOption(items[4]) == Success(p.lockRound) by { OptionRoundTrip(p.lockRound); }
    assert DecodeSignedVotes(items[5].items) == Success(p.lockVotes) by { SignedVotesRoundTrip(p.lockVotes); }
  }

  lemma SignedProposalRoundTrip(sp: SignedProposal)
    ensures DecodeSignedProposal(SignedProposalItem(sp)) == Success(sp)
  {
    ProposalRoundTrip(sp.proposal);
  }

  // ---- encode after decode: exactly the canonical proofs

  lemma {:induction false} DecodedBytes(items: seq<Item>)
    requires DecodeBytesList(items).Success?
    ensures StrItems(DecodeBytesList(items).value) == items
  {
    if items != [] {
      DecodedBytes(items[1..]);
      assert items == [items[0]] + items[1..];
    }
  }

  lemma DecodedInt(i: Item, width: nat)
    requires DecodeInt(i, width).Success?
    ensures IntItem(DecodeInt(i, width).value) == i
  {
    ShortestDigits(i.bytes);
  }

  lemma U64Decoded(i: Item)
    requires DecodeU64(i).Success?
    ensures i == IntItem(DecodeU64(i).value)
  {
    PowersOf256();
    DecodedInt(i, 8);
    hide DecodeInt, IntItem;
  }

  lemma {:induction false} ZipMapOfDistinct(keys: seq<Address>, values: seq<Signature>)
    requires |keys| == |values| && forall i, j :: 0 <= i < j < |keys| ==> keys[i] != keys[j]
    ensures var m := ZipMap(keys, values);
            forall i :: 0 <= i < |keys| ==> keys[i] in m && m[keys[i]] == values[i]
  {
    if keys != [] {
      ZipMapOfDistinct(keys[..|keys| - 1], values[..|keys| - 1]);
    }
  }

  lemma {:induction false} ZipMapKeys(keys: seq<Address>, values: seq<Signature>)
    requires |keys| == |values|
    ensures forall k :: k in ZipMap(keys, values) <==> k in keys
  {
    if keys != [] {
      ZipMapKeys(keys[..|keys| - 1], values[..|keys| - 1]);
      assert keys == keys[..|keys| - 1] + [keys[|keys| - 1]];
    }
  }

  /** The fields of an item that decodes to a proof, apart from the vote map. */
  lemma DecodedProof(i: Item)
    requires DecodeProof(i).Success?
    ensures var p := DecodeProof(i).value;
            && i.List? && |i.items| == 5 && i.items[3].List? && i.items[4].List?
            && i.items[0] == IntItem(p.height) && i.items[1] == IntItem(p.round) && i.items[2] == Str(p.blockHash)
            && DecodeBytesList(i.items[3].items).Success? && DecodeBytesList(i.items[4].items).Success?
            && var keys, values := DecodeBytesList(i.items[3].items).value, DecodeBytesList(i.items[4].items).value;
            && i.items[3].items == StrItems(keys) && i.items[4].items == StrItems(values)
            && |keys| == |values| && p.votes == ZipMap(keys, values)
  {
    U64Decoded(i.items[0]);
    U64Decoded(i.items[1]);
    DecodedBytes(i.items[3].items);
    DecodedBytes(i.items[4].items);
    hide DecodeU64, IntItem, DecodeBytesList, ZipMap;
  }

  /** Strictly ascending addresses come back from the map as they were. */
  lemma AscendingZip(keys: seq<Address>, values: seq<Signature>)
    requires |keys| == |values|
    ensures StrictlySorted(keys) ==>
              Ascending(ZipMap(keys, values).Keys) == keys && ValuesAt(ZipMap(keys, values), keys) == values
    ensures Ascending(ZipMap(keys, values).Keys) == keys ==> StrictlySorted(keys)
  {
    ZipMapKeys(keys, values);
    AscendingSorted(ZipMap(keys, values).Keys);
    hide ZipMap, Ascending, Le;
    if StrictlySorted(keys) {
      forall i, j | 0 <= i < j < |keys| ensures keys[i] != keys[j] { assert Lt(keys[i], keys[j]); }
      ZipMapOfDistinct(keys, values);
      AscendingUnique(keys, ZipMap(keys, values).Keys);
    }
  }

  /** An item that decodes to a proof is that proof's encoding exactly when its
      address list is strictly ascending. */
  lemma ProofCanonical(i: Item)
    requires DecodeProof(i).Success?
    ensures ProofItem(DecodeProof(i).value) == i
            <==> StrictlySorted(DecodeBytesList(i.items[3].items).value)
  {
    DecodedProof(i);
    var p := DecodeProof(i).value;
    var keys, values := DecodeBytesList(i.items[3].items).value, DecodeBytesList(i.items[4].items).value;
    AscendingZip(keys, values);
    BytesListRoundTrip(Ascending(p.votes.Keys));
    hide DecodeProof, DecodeBytesList, IntItem, StrictlySorted, Ascending, ZipMap;
    if StrictlySorted(keys) { assert i.items == ProofItem(p).items; }
  }

  // ---- what is accepted at all

  /** Nothing else decodes to a signed vote than its encoding. */
  lemma SignedVoteDecodesIff(i: Item, sv: SignedVote)
    ensures DecodeSignedVote(i) == Success(sv) <==> i == SignedVoteItem(sv)
  {
    SignedVoteRoundTrip(sv);
    if DecodeSignedVote(i) == Success(sv) {
      VoteDecoded(i.items[0]);
      assert i.items == SignedVoteItem(sv).items;
    }
    hide DecodeVote, VoteItem;
  }

  lemma VoteDecoded(i: Item)
    requires DecodeVote(i).Success?
    ensures i == VoteItem(DecodeVote(i).value)
  {
    hide DecodeU64, DecodeVoteType, IntItem;
    VoteTypeDecoded(i.items[0]);
    U64Decoded(i.items[1]);
    U64Decoded(i.items[2]);
    assert i.items == VoteItem(DecodeVote(i).value).items;
  }

  lemma VoteTypeDecoded(i: Item)
    requires DecodeVoteType(i).Success?
    ensures i == IntItem(VoteTypeByte(DecodeVoteType(i).value))
  {
    DecodedInt(i, 1);
    hide DecodeInt, IntItem;
  }

  lemma {:induction false} SignedVotesDecodeIff(items: seq<Item>, votes: seq<SignedVote>)
    ensures DecodeSignedVotes(items) == Success(votes) <==> items == SignedVoteItems(votes)
  {
    SignedVotesRoundTrip(votes);
    if items != [] && DecodeSignedVotes(items) == Success(votes) {
      SignedVoteDecodesIff(items[0], votes[0]);
      SignedVotesDecodeIff(items[1..], votes[1..]);
      assert items == [items[0]] + items[1..];
    }
    hide DecodeSignedVote, SignedVoteItem;
  }

  lemma OptionDecodesIff(i: Item, o: Option<u64>)
    ensures DecodeOption(i) == Success(o) <==> i == OptionItem(o)
  {
    OptionRoundTrip(o);
    if DecodeOption(i) == Success(o) {
      if o.Some? { U64Decoded(i.items[0]); }
      assert i.items == OptionItem(o).items;
    }
    hide DecodeU64, IntItem;
  }

  predicate LastOf(keys: seq<Address>, j: nat)
    requires j < |keys|
  {
    keys[j] !in keys[j + 1..]
  }

  /** The last signature for an address is the one kept, and every address has one. */
  lemma {:induction false} ZipMapIff(keys: seq<Address>, values: seq<Signature>, m: map<Address, Signature>)
    requires |keys| == |values|
    ensures m == ZipMap(keys, values) <==>
            && (forall a :: a in m <==> a in keys)
            && forall j | 0 <= j < |keys| && LastOf(keys, j) :: keys[j] in m && m[keys[j]] == values[j]
  {
    ZipMapKeys(keys, values);
    forall j | 0 <= j < |keys| && LastOf(keys, j) ensures ZipMap(keys, values)[keys[j]] == values[j] {
      ZipMapLast(keys, values, j);
    }
    if && (forall a :: a in m <==> a in keys)
       && forall j | 0 <= j < |keys| && LastOf(keys, j) :: keys[j] in m && m[keys[j]] == values[j]
    {
      forall a | a in m ensures m[a] == ZipMap(keys, values)[a] { var j := LastPlace(keys, a); }
      assert m.Keys == ZipMap(keys, values).Keys;
    }
    hide ZipMap;
  }

  lemma {:induction false} ZipMapLast(keys: seq<Address>, values: seq<Signature>, j: nat)
    requires |keys| == |values| && j < |keys| && LastOf(keys, j)
    ensures keys[j] in ZipMap(keys, values) && ZipMap(keys, values)[keys[j]] == values[j]
  {
    var n := |keys| - 1;
    if j < n {
      assert keys[n] in keys[j + 1..];
      assert keys[j + 1..] == keys[..n][j + 1..] + [keys[n]];
      ZipMapLast(keys[..n], values[..n], j);
    }
  }

  lemma {:induction false} LastPlace(keys: seq<Address>, a: Address) returns (j: nat)
    requires a in keys
    ensures j < |keys| && keys[j] == a && LastOf(keys, j)
  {
    if a in keys[1..] {
      var k := LastPlace(keys[1..], a);
      j := k + 1;
      assert keys[j + 1..] == keys[1..][k + 1..];
    } else {
      j := 0;
    }
  }

  /** The two lists may be in any order, repetitions included; they must be of one length. */
  lemma ProofDecodesIff(i: Item, p: Proof, keys: seq<Address>, values: seq<Signature>)
    requires i.List? && |i.items| == 5 && i.items[3] == List(StrItems(keys)) && i.items[4] == List(StrItems(values))
    ensures DecodeProof(i) == Success(p) <==>
            && i.items[0] == IntItem(p.height) && i.items[1] == IntItem(p.round) && i.items[2] == Str(p.blockHash)
            && |keys| == |values|
            && (forall a :: a in p.votes <==> a in keys)
            && forall j | 0 <= j < |keys| && LastOf(keys, j) :: keys[j] in p.votes && p.votes[keys[j]] == values[j]
  {
    hide DecodeU64, IntItem, DecodeBytesList, ZipMap, LastOf;
    BytesListRoundTrip(keys);
    BytesListRoundTrip(values);
    U64RoundTrip(p.height);
    U64RoundTrip(p.round);
    if DecodeProof(i).Success? { DecodedProof(i); }
    assert DecodeProof(i) == Success(p) <==>
           && i.items[0] == IntItem(p.height) && i.items[1] == IntItem(p.round) && i.items[2] == Str(p.blockHash)
           && |keys| == |values| && p.votes == ZipMap(keys, values);
    if |keys| == |values| { ZipMapIff(keys, values, p.votes); }
  }

  ghost predicate ProposalItems(i: Item, p: Proposal) {
    && i.List? && |i.items| == 7
    && (forall k | 0 <= k < 7 && k != 3 :: i.items[k] == ProposalItem(p).items[k])
    && DecodeProof(i.items[3]) == Success(p.proof)
  }

  lemma ItemsDecode(i: Item, p: Proposal)
    requires ProposalItems(i, p)
    ensures DecodeProposal(i) == Success(p)
  {
    hide DecodeU64, IntItem, DecodeProof, ProofItem, DecodeSignedVotes, SignedVoteItems, DecodeOption, OptionItem;
    var items := i.items;
    assert DecodeU64(items[0]) == Success(p.height) by { U64RoundTrip(p.height); }
    assert DecodeU64(items[1]) == Success(p.round) by { U64RoundTrip(p.round); }
    assert DecodeOption(items[4]) == Success(p.lockRound) by { OptionRoundTrip(p.lockRound); }
    assert items[5].List? && DecodeSignedVotes(items[5].items) == Success(p.lockVotes) by {
      SignedVotesRoundTrip(p.lockVotes);
    }
    assert items[2] == Str(p.hash) && items[6] == Str(p.proposer);
  }

  lemma DecodedItems(i: Item)
    requires DecodeProposal(i).Success?
    ensures ProposalItems(i, DecodeProposal(i).value)
  {
    hide DecodeU64, IntItem, DecodeProof, ProofItem, DecodeSignedVotes, SignedVoteItems, DecodeOption, OptionItem;
    var p := DecodeProposal(i).value;
    U64Decoded(i.items[0]);
    U64Decoded(i.items[1]);
    OptionDecodesIff(i.items[4], p.lockRound);
    SignedVotesDecodeIff(i.items[5].items, p.lockVotes);
  }

  /** Apart from the proof nothing but a proposal's encoding decodes to it. */
  lemma ProposalDecodesIff(i: Item, p: Proposal)
    ensures DecodeProposal(i) == Success(p) <==>
            && i.List? && |i.items| == 7
            && (forall k | 0 <= k < 7 && k != 3 :: i.items[k] == ProposalItem(p).items[k])
            && DecodeProof(i.items[3]) == Success(p.proof)
  {
    if ProposalItems(i, p) { ItemsDecode(i, p); }
    if DecodeProposal(i) == Success(p) { DecodedItems(i); }
    hide DecodeProposal, ProposalItem, DecodeProof;
  }
}
