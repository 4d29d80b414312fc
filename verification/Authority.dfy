/** The two generations of authority lists (`AuthorityManage` in src/types.rs)
    and the round-robin choice of a proposer. */
module Authority {
  import opened Prelude
  import opened Types

  datatype Authority = Authority(
    list: seq<Node>, addresses: set<Address>,
    oldList: seq<Node>, oldAddresses: set<Address>, oldHeight: u64)
  {
    /** Each address set is the addresses of its list. */
    ghost predicate Consistent() {
      addresses == AddressSet(list) && oldAddresses == AddressSet(oldList)
    }

    function Updated(oldHeight': u64, list': seq<Node>): Authority {
      Authority(list', AddressSet(list'), list, addresses, oldHeight')
    }

    function ListFor(height: u64): seq<Node> { if height == oldHeight then oldList else list }

    function AddressesFor(height: u64): set<Address> { if height == oldHeight then oldAddresses else addresses }

    /** Both branches of the source compare with the old list. */
    predicate AboveThreshold(len: nat) { len * 3 > |oldList| * 2 }

    /** Both branches of the source look into the old set. */
    predicate ContainsSender(senders: set<Address>) { exists a | a in senders :: a in oldAddresses }
  }

  function NoAuthority(): Authority { Authority([], {}, [], {}, 0) }

  class AuthorityManage {
    var authorities: seq<Node>
    var addressSet: set<Address>
    var authoritiesOld: seq<Node>
    var addressSetOld: set<Address>
    var authorityHOld: u64

    function View(): Authority reads this {
      Authority(authorities, addressSet, authoritiesOld, addressSetOld, authorityHOld)
    }

    constructor ()
      ensures View() == NoAuthority()
    {
      authorities, addressSet, authoritiesOld, addressSetOld, authorityHOld := [], {}, [], {}, 0;
    }

    method UpdateAuthority(oldHeight: u64, authList: seq<Node>)
      modifies this
      ensures View() == old(View()).Updated(oldHeight, authList)
      ensures old(View()).Consistent() ==> View().Consistent()
    {
      var tmp := authorities;
      authorities := authList;
      authoritiesOld := tmp;
      var oldSet := addressSet;
      addressSetOld := oldSet;
      authorityHOld := oldHeight;
      addressSet := {};
      for i := 0 to |authList|
        invariant addressSet == AddressSet(authList[..i])
        invariant authorities == authList && authoritiesOld == tmp
        invariant addressSetOld == oldSet && authorityHOld == oldHeight
      {
        assert authList[..i + 1] == authList[..i] + [authList[i]];
        AddressSetAppend(authList[..i], authList[i]);
        addressSet := addressSet + {authList[i].address};
      }
      assert authList[..|authList|] == authList;
    }

    method IsAboveThreshold(len: nat, isOld: bool) returns (above: bool)
      ensures above == View().AboveThreshold(len)
    {
      if isOld {
        if len * 3 > |authoritiesOld| * 2 { return true; }
      } else if len * 3 > |authoritiesOld| * 2 {
        return true;
      }
      return false;
    }

    method ContainsSender(senders: set<Address>, isOld: bool) returns (contains: bool)
      ensures contains == View().ContainsSender(senders)
    {
      if isOld { return exists a | a in senders :: a in addressSetOld; }
      return exists a | a in senders :: a in addressSetOld;
    }
  }

  lemma AddressSetAppend(nodes: seq<Node>, node: Node)
    ensures AddressSet(nodes + [node]) == AddressSet(nodes) + {node.address}
  {
    var all := nodes + [node];
    forall a ensures a in AddressSet(all) <==> a in AddressSet(nodes) + {node.address} {
      if a in AddressSet(all) {
        var i :| 0 <= i < |all| && all[i].address == a;
        assert i < |nodes| ==> nodes[i].address == a;
      }
      if a in AddressSet(nodes) {
        var i :| 0 <= i < |nodes| && nodes[i].address == a;
        assert all[i].address == a;
      }
      assert all[|nodes|] == node;
    }
  }

  // ---- round robin

  function ProposerIndex(height: u64, round: nat, n: nat): nat
    requires n > 0
  {
    (height + round) % n
  }

  /** `Panicked` where `height + round` overflows. */
  function ProposerCheck(a: Authority, height: u64, round: u64, address: Address): Result<()> {
    var nodes := a.ListFor(height);
    if nodes == [] then Failure(NoAuthorityList)
    else if height + round >= U64_BOUND then Failure(Panicked)
    else if nodes[ProposerIndex(height, round, |nodes|)].address == address then Success(())
    else Failure(InvalidProposer)
  }

  /** Exactly one address may propose at a height and round. */
  lemma OneProposer(a: Authority, height: u64, round: u64)
    requires a.ListFor(height) != [] && height + round < U64_BOUND
    ensures exists p :: ProposerCheck(a, height, round, p).Success? &&
                        forall q :: ProposerCheck(a, height, round, q).Success? ==> q == p
  {
    var nodes := a.ListFor(height);
    var p := nodes[ProposerIndex(height, round, |nodes|)].address;
    assert ProposerCheck(a, height, round, p).Success?;
  }

  /** The proposer's place in the list: the first at the sum 0, and one on, with the
      first after the last, for each round and for each height. */
  lemma RoundRobin(height: u64, round: nat, n: nat)
    requires n > 0
    ensures ProposerIndex(0, 0, n) == 0 && ProposerIndex(height, round, n) < n
    ensures var here := ProposerIndex(height, round, n);
            ProposerIndex(height, round + 1, n) == if here + 1 < n then here + 1 else 0
    ensures height + 1 < U64_BOUND ==> ProposerIndex(height + 1, round, n) == ProposerIndex(height, round + 1, n)
  {
    var sum := height + round;
    var q, here := sum / n, sum % n;
    assert sum == q * n + here;
    if here + 1 < n {
      DivisionUnique(sum + 1, q, here + 1, n);
    } else {
      assert (q + 1) * n == q * n + n;
      DivisionUnique(sum + 1, q + 1, 0, n);
    }
  }

  /** Whether the `i`-th round after `round` selects `position`. */
  predicate Selects(height: u64, round: u64, i: nat, n: nat, position: nat)
    requires n > 0
  {
    ProposerIndex(height, round + i, n) == position
  }

  lemma IndexAfter(height: u64, round: u64, i: nat, n: nat)
    requires i < n
    ensures var start := (height + round) % n;
            Selects(height, round, i, n, if start + i < n then start + i else start + i - n)
  {
    var base := height + round;
    var q, start := base / n, base % n;
    assert base == q * n + start;
    if start + i < n {
      DivisionUnique(base + i, q, start + i, n);
    } else {
      assert (q + 1) * n == q * n + n;
      DivisionUnique(base + i, q + 1, start + i - n, n);
    }
  }

  /** Over any n consecutive rounds of a height, n being the length of the list,
      every position is selected exactly once. */
  lemma RotationVisitsAll(height: u64, round: u64, n: nat, position: nat)
    requires position < n && height + round + n <= U64_BOUND
    ensures exists i :: 0 <= i < n && Selects(height, round, i, n, position)
                        && forall j :: 0 <= j < n && Selects(height, round, j, n, position) ==> j == i
  {
    var start := (height + round) % n;
    var i := if position >= start then position - start else position + n - start;
    IndexAfter(height, round, i, n);
    assert Selects(height, round, i, n, position);
    forall j | 0 <= j < n && Selects(height, round, j, n, position) ensures j == i {
      IndexAfter(height, round, j, n);
    }
  }
}
