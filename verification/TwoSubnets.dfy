/** A host and a pool of two one-address subnets, for the lemmas that exhibit an input. */
module TwoSubnets {
  import opened Outcomes
  import opened Prefixes
  import opened OwnRecord
  import opened Pools
  import opened ClaimLifecycle

  const HOST := Target(Key("host", "lan"), "", "")
  const FIRST := Subnet(V4, 1, 32)
  const SECOND := Subnet(V4, 2, 32)
  const PAIR := [PoolSubnet(Some(FIRST), ""), PoolSubnet(Some(SECOND), "")]
  const FIRST_ADDRESS := Address(V4, 1)
  const SECOND_ADDRESS := Address(V4, 2)

  lemma {:induction false} EachHoldsOne()
    ensures forall a :: Contains(FIRST, a) <==> a == FIRST_ADDRESS
    ensures forall a :: Contains(SECOND, a) <==> a == SECOND_ADDRESS
  {
    assert HostBits(FIRST) == 0 && HostBits(SECOND) == 0;
  }
}
