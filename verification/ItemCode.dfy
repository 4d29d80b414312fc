/** A byte code for RLP items that can be read back, as one instance of the codecs
    that `Env` leaves open. */
module ItemCode {
  import opened Prelude
  import opened Digits
  import opened ByteOrder
  import opened Types
  import Codec

  function Units(b: Bytes): Bytes {
    if b == [] then [0] else [1, b[0]] + Units(b[1..])
  }

  function Code(i: Codec.Item): Bytes
    decreases i
  {
    match i
    case Str(b) => [0] + Units(b)
    case List(items) => [1] + Codes(items)
  }

  function Codes(items: seq<Codec.Item>): Bytes
    decreases items
  {
    if items == [] then [0] else [1] + Code(items[0]) + Codes(items[1..])
  }

  lemma {:induction false} UnitsFree(a: Bytes, b: Bytes, x: Bytes, y: Bytes)
    requires Units(a) + x == Units(b) + y
    ensures a == b && x == y
  {
    var l, r := Units(a) + x, Units(b) + y;
    assert l[0] == r[0];
    if a != [] {
      assert l[1] == r[1] && l[2..] == Units(a[1..]) + x && r[2..] == Units(b[1..]) + y;
      UnitsFree(a[1..], b[1..], x, y);
      assert a == [a[0]] + a[1..] && b == [b[0]] + b[1..];
    } else {
      assert l[1..] == x && r[1..] == y;
    }
  }

  /** No code is the beginning of another. */
  lemma {:induction false} CodeFree(i: Codec.Item, j: Codec.Item, x: Bytes, y: Bytes)
    requires Code(i) + x == Code(j) + y
    ensures i == j && x == y
    decreases i
  {
    var l, r := Code(i) + x, Code(j) + y;
    assert l[0] == r[0];
    if i.Str? {
      assert l[1..] == Units(i.bytes) + x && r[1..] == Units(j.bytes) + y;
      UnitsFree(i.bytes, j.bytes, x, y);
    } else {
      assert l[1..] == Codes(i.items) + x && r[1..] == Codes(j.items) + y;
      CodesFree(i.items, j.items, x, y);
    }
  }

  lemma CodesSplit(a: seq<Codec.Item>, x: Bytes)
    ensures var l := Codes(a) + x;
            if a == [] then l[0] == 0 && l[1..] == x
            else l[0] == 1 && l[1..] == Code(a[0]) + (Codes(a[1..]) + x)
  {
    hide Code;
  }

  lemma {:induction false} CodesFree(a: seq<Codec.Item>, b: seq<Codec.Item>, x: Bytes, y: Bytes)
    requires Codes(a) + x == Codes(b) + y
    ensures a == b && x == y
    decreases a
  {
    hide Code, Codes;
    CodesSplit(a, x);
    CodesSplit(b, y);
    if a != [] {
      CodeFree(a[0], b[0], Codes(a[1..]) + x, Codes(b[1..]) + y);
      CodesFree(a[1..], b[1..], x, y);
      assert a == [a[0]] + a[1..] && b == [b[0]] + b[1..];
    }
  }

  ghost function Uncode(b: Bytes): Option<Codec.Item> {
    if exists i :: Code(i) == b then
      var i :| Code(i) == b;
      Some(i)
    else None
  }

  lemma UncodeCode(i: Codec.Item)
    ensures Uncode(Code(i)) == Some(i)
  {
    var j := Uncode(Code(i)).value;
    CodeFree(i, j, [], []);
  }

  // ---- lengths

  lemma {:induction false} UnitsLength(b: Bytes)
    ensures |Units(b)| == 2 * |b| + 1
  {
    if b != [] { UnitsLength(b[1..]); }
  }

  ghost predicate Short(i: Codec.Item, n: nat) { |Code(i)| <= n }

  lemma ShortStr(b: Bytes)
    ensures Short(Codec.Str(b), 2 * |b| + 2)
  {
    UnitsLength(b);
  }

  lemma {:induction false} ShortItems(items: seq<Codec.Item>, n: nat)
    requires forall i | i in items :: Short(i, n)
    ensures |Codes(items)| <= |items| * (n + 1) + 1
  {
    if items != [] {
      ShortItems(items[1..], n);
      assert items[0] in items && |items| * (n + 1) == (|items| - 1) * (n + 1) + (n + 1);
    }
  }

  lemma ShortList(items: seq<Codec.Item>, n: nat, m: nat)
    requires forall i | i in items :: Short(i, n)
    requires |items| * (n + 1) + 2 <= m
    ensures Short(Codec.List(items), m)
  {
    ShortItems(items, n);
  }

  lemma ShortInt(n: nat)
    requires n < 256
    ensures Short(Codec.IntItem(n), 4)
  {
    assert Shortest(n / 256) == [];
    assert |Shortest(n)| <= 1;
    ShortStr(Shortest(n));
  }

  /** A proposal with one-byte fields, at most one signature and no lock. */
  predicate Tiny(sp: SignedProposal) {
    var p := sp.proposal;
    && p.height < 256 && p.round < 256 && |p.hash| <= 1 && |p.proposer| <= 1 && |sp.signature| <= 1
    && p.lockRound.None? && p.lockVotes == []
    && p.proof.height < 256 && p.proof.round < 256 && |p.proof.blockHash| <= 1
    && |p.proof.votes| <= 1 && forall a | a in p.proof.votes :: |a| <= 1 && |p.proof.votes[a]| <= 1
  }

  lemma TinyShort(sp: SignedProposal)
    requires Tiny(sp)
    ensures |Code(Codec.SignedProposalItem(sp))| <= 1000
  {
    hide Code, Codes, Codec.ProposalItem;
    TinyProposal(sp);
    ShortStr(sp.signature);
    ShortList([Codec.ProposalItem(sp.proposal), Codec.Str(sp.signature)], 430, 864);
  }

  lemma TinyProposal(sp: SignedProposal)
    requires Tiny(sp)
    ensures Short(Codec.ProposalItem(sp.proposal), 430)
  {
    hide Code, Codes, Codec.ProofItem, Codec.IntItem;
    var p := sp.proposal;
    TinyProof(p.proof);
    ShortInt(p.height);
    ShortInt(p.round);
    ShortStr(p.hash);
    ShortStr(p.proposer);
    ShortList([], 0, 2);
    var items := Codec.ProposalItem(p).items;
    assert items == [Codec.IntItem(p.height), Codec.IntItem(p.round), Codec.Str(p.hash), Codec.ProofItem(p.proof),
                     Codec.List([]), Codec.List([]), Codec.Str(p.proposer)];
    ShortList(items, 60, 430);
  }

  lemma TinyProof(proof: Proof)
    requires proof.height < 256 && proof.round < 256 && |proof.blockHash| <= 1
    requires |proof.votes| <= 1 && forall a | a in proof.votes :: |a| <= 1 && |proof.votes[a]| <= 1
    ensures Short(Codec.ProofItem(proof), 60)
  {
    hide Code, Codes, Shortest;
    var keys := Ascending(proof.votes.Keys);
    var values := Codec.ValuesAt(proof.votes, keys);
    AscendingLength(proof.votes.Keys);
    assert |proof.votes| == |proof.votes.Keys|;
    ShortInt(proof.height);
    ShortInt(proof.round);
    ShortStr(proof.blockHash);
    forall b | b in keys || b in values ensures |b| <= 1 && Short(Codec.Str(b), 4) { ShortStr(b); }
    ShortList(Codec.StrItems(keys), 4, 7);
    ShortList(Codec.StrItems(values), 4, 7);
    ShortList(Codec.ProofItem(proof).items, 7, 60);
  }

  lemma {:induction false} AscendingLength(s: set<Bytes>)
    ensures |Ascending(s)| == |s|
    decreases |s|
  {
    if s != {} { AscendingLength(s - {LeastOf(s)}); }
  }
}
