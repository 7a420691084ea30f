/** The host-resolution part of `EC2Service` (aws/libaws/ec2.py): choosing the
    instance listing call, collecting the members of load balancers, flattening
    reservations into instances and turning those into a sorted host list.

    The two boto calls are parameters: `listBalancers` stands for the ELB
    service's `list(name)` and `getAllInstances` for the EC2 connection's
    `get_all_instances`. Nothing is assumed about what they return. */
module Ec2 {
  import opened Seqs
  import opened StringOrder

  datatype Option<T> = None | Some(value: T)

  /** An EC2 instance, with the two attributes the core reads. */
  datatype Instance = Instance(id: string, publicDnsName: string)

  /** A reservation: the instances started by one request, in boto's order. */
  datatype Reservation = Reservation(instances: seq<Instance>)

  /** A load balancer's registered instance, of which only the id is read. */
  datatype Member = Member(id: string)

  /** A load balancer and its registered instances, in boto's order. */
  datatype Balancer = Balancer(instances: seq<Member>)

  /** The arguments of one `get_all_instances` call: the optional allow-list
      `instance_ids` and whatever other keyword arguments the caller passes. */
  datatype InstanceQuery = InstanceQuery(instanceIds: Option<seq<string>>, filters: map<string, string>)

  function InstancesOf(r: Reservation): seq<Instance> { r.instances }

  function DnsName(i: Instance): string { i.publicDnsName }

  function MembersOf(b: Balancer): seq<Member> { b.instances }

  function MemberId(m: Member): string { m.id }

  /** The instances of all reservations, reservation after reservation. */
  function Flatten(rs: seq<Reservation>): seq<Instance>
  {
    Concat(Map(InstancesOf, rs))
  }

  /** The sum of the reservations' instance counts. */
  function InstanceCount(rs: seq<Reservation>): nat
  {
    if rs == [] then 0 else InstanceCount(rs[..|rs| - 1]) + |rs[|rs| - 1].instances|
  }

  /** The public DNS names of the instances, in the same order. */
  function Names(instances: seq<Instance>): seq<string>
  {
    Map(DnsName, instances)
  }

  /** What `resolve_hosts` returns: every instance's public DNS name, sorted,
      duplicates and empty names included. */
  function HostList(rs: seq<Reservation>): (hosts: seq<string>)
    ensures Sorted(hosts)
    ensures multiset(hosts) == multiset(Names(Flatten(rs)))
    ensures |hosts| == InstanceCount(rs)
  {
    FlattenLength(rs);
    Sort(Names(Flatten(rs)))
  }

  /** The ids of all members of all balancers, balancer after balancer. */
  function MemberIds(bs: seq<Balancer>): seq<string>
  {
    Map(MemberId, Concat(Map(MembersOf, bs)))
  }

  /** The sum of the balancers' member counts. */
  function MemberCount(bs: seq<Balancer>): nat
  {
    if bs == [] then 0 else MemberCount(bs[..|bs| - 1]) + |bs[|bs| - 1].instances|
  }

  /** The call `list_in_elb` makes: the member ids as the allow-list, nothing else. */
  function ElbQuery(bs: seq<Balancer>): InstanceQuery
  {
    InstanceQuery(Some(MemberIds(bs)), map[])
  }

  // ----- list / list_in_elb -----

  /** `list(elb, *args, **kwargs)`: with a balancer name, the instances of that
      balancer and nothing from `query`; without one, `query` goes to
      `get_all_instances` as it is. */
  method List(elb: Option<string>, query: InstanceQuery,
              listBalancers: string -> seq<Balancer>,
              getAllInstances: InstanceQuery -> seq<Reservation>)
    returns (reservations: seq<Reservation>)
    ensures elb.Some? ==> reservations == getAllInstances(ElbQuery(listBalancers(elb.value)))
    ensures elb.None? ==> reservations == getAllInstances(query)
  {
    if elb.Some? {
      reservations := ListInElb(elb.value, listBalancers, getAllInstances);
    } else {
      reservations := getAllInstances(query);
    }
  }

  /** `list_in_elb(name)`: gathers the members of every balancer the listing
      returns, then fetches the reservations of exactly those ids. */
  method ListInElb(name: string,
                   listBalancers: string -> seq<Balancer>,
                   getAllInstances: InstanceQuery -> seq<Reservation>)
    returns (reservations: seq<Reservation>)
    ensures reservations == getAllInstances(ElbQuery(listBalancers(name)))
  {
    var members: seq<Member> := [];
    var balancers := listBalancers(name);
    var i := 0;
    while i < |balancers|
      invariant 0 <= i <= |balancers|
      invariant members == Concat(Map(MembersOf, balancers[..i]))
    {
      ConcatMapSnoc(MembersOf, balancers[..i], balancers[i]);
      assert balancers[..i + 1] == balancers[..i] + [balancers[i]];
      members := members + balancers[i].instances;
      i := i + 1;
    }
    assert balancers[..i] == balancers;
    reservations := getAllInstances(InstanceQuery(Some(Map(MemberId, members)), map[]));
  }

  /** The allow-list holds member `j` of balancer `i` after the members of the
      balancers before it, and nothing beyond the members. */
  lemma MemberIdsOrder(bs: seq<Balancer>, i: nat, j: nat)
    requires i < |bs| && j < |bs[i].instances|
    ensures |MemberIds(bs)| == MemberCount(bs)
    ensures MemberCount(bs[..i]) + j < |MemberIds(bs)|
    ensures MemberIds(bs)[MemberCount(bs[..i]) + j] == bs[i].instances[j].id
  {
    MemberIdsLength(bs);
    MemberIdsLength(bs[..i]);
    MapPrefix(MembersOf, bs, i);
    assert Map(MembersOf, bs)[i] == bs[i].instances;
    ConcatAt(Map(MembersOf, bs), i, j);
    var k := MemberCount(bs[..i]) + j;
    var members := Concat(Map(MembersOf, bs));
    assert k == |Concat(Map(MembersOf, bs[..i]))| + j;
    assert MemberIds(bs)[k] == MemberId(members[k]);
  }

  lemma {:induction false} MemberIdsLength(bs: seq<Balancer>)
    ensures |MemberIds(bs)| == MemberCount(bs)
    decreases |bs|
  {
    if bs != [] {
      var n := |bs| - 1;
      assert bs == bs[..n] + [bs[n]];
      ConcatMapSnoc(MembersOf, bs[..n], bs[n]);
      MemberIdsLength(bs[..n]);
    }
  }

  /** The allow-list is empty exactly when no returned balancer has a member,
      which includes a name that matches no balancer. */
  lemma MemberIdsEmpty(bs: seq<Balancer>)
    ensures MemberIds(bs) == [] <==> forall i :: 0 <= i < |bs| ==> bs[i].instances == []
  {
    ConcatEmpty(Map(MembersOf, bs));
    assert forall i :: 0 <= i < |bs| ==> Map(MembersOf, bs)[i] == bs[i].instances;
  }

  // ----- resolve_instances -----

  /** `resolve_instances(reservations)`: appends every instance of every
      reservation to one list. */
  method ResolveInstances(reservations: seq<Reservation>) returns (instances: seq<Instance>)
    ensures instances == Flatten(reservations)
    ensures |instances| == InstanceCount(reservations)
  {
    instances := [];
    var i := 0;
    while i < |reservations|
      invariant 0 <= i <= |reservations|
      invariant instances == Flatten(reservations[..i])
    {
      var reservation := reservations[i];
      var j := 0;
      while j < |reservation.instances|
        invariant 0 <= j <= |reservation.instances|
        invariant instances == Flatten(reservations[..i]) + reservation.instances[..j]
      {
        instances := instances + [reservation.instances[j]];
        j := j + 1;
      }
      assert reservation.instances[..j] == reservation.instances;
      ConcatMapSnoc(InstancesOf, reservations[..i], reservation);
      assert reservations[..i + 1] == reservations[..i] + [reservation];
      i := i + 1;
    }
    assert reservations[..i] == reservations;
    FlattenLength(reservations);
  }

  lemma {:induction false} FlattenLength(rs: seq<Reservation>)
    ensures |Flatten(rs)| == InstanceCount(rs)
    decreases |rs|
  {
    if rs != [] {
      var n := |rs| - 1;
      assert rs == rs[..n] + [rs[n]];
      ConcatMapSnoc(InstancesOf, rs[..n], rs[n]);
      FlattenLength(rs[..n]);
    }
  }

  /** Instance `j` of reservation `i` comes after the instances of the
      reservations before it: input order, then order within a reservation. */
  lemma FlattenOrder(rs: seq<Reservation>, i: nat, j: nat)
    requires i < |rs| && j < |rs[i].instances|
    ensures InstanceCount(rs[..i]) + j < |Flatten(rs)|
    ensures Flatten(rs)[InstanceCount(rs[..i]) + j] == rs[i].instances[j]
  {
    FlattenLength(rs[..i]);
    MapPrefix(InstancesOf, rs, i);
    assert Map(InstancesOf, rs)[i] == rs[i].instances;
    ConcatAt(Map(InstancesOf, rs), i, j);
    assert InstanceCount(rs[..i]) == |Concat(Map(InstancesOf, rs)[..i])|;
  }

  /** No reservations, or only empty ones, give no instances, and nothing else does. */
  lemma FlattenEmpty(rs: seq<Reservation>)
    ensures Flatten(rs) == [] <==> forall i :: 0 <= i < |rs| ==> rs[i].instances == []
  {
    ConcatEmpty(Map(InstancesOf, rs));
    assert forall i :: 0 <= i < |rs| ==> Map(InstancesOf, rs)[i] == rs[i].instances;
  }

  // ----- resolve_hosts -----

  /** `resolve_hosts(reservations)`: the public DNS names of the resolved
      instances, sorted in place. */
  method ResolveHosts(reservations: seq<Reservation>) returns (hosts: seq<string>)
    ensures Sorted(hosts)
    ensures multiset(hosts) == multiset(Names(Flatten(reservations)))
    ensures |hosts| == InstanceCount(reservations)
    ensures hosts == HostList(reservations)
  {
    var instances := ResolveInstances(reservations);
    var names := Names(instances);
    var a := new string[|names|](k requires 0 <= k < |names| => names[k]);
    assert a[..] == names;
    SortInPlace(a);
    hosts := a[..];
  }

  /** The host list depends on the multiset of names alone. */
  lemma HostListByNames(rs: seq<Reservation>, rs': seq<Reservation>)
    requires multiset(Names(Flatten(rs))) == multiset(Names(Flatten(rs')))
    ensures HostList(rs) == HostList(rs')
  {
    SortedUnique(HostList(rs), HostList(rs'));
  }

  /** Listing the same reservations in another order gives the identical host list. */
  lemma HostListReorderReservations(rs: seq<Reservation>, rs': seq<Reservation>)
    requires multiset(rs) == multiset(rs')
    ensures HostList(rs) == HostList(rs')
  {
    MapPermutation(InstancesOf, rs, rs');
    ConcatPermutation(Map(InstancesOf, rs), Map(InstancesOf, rs'));
    MapPermutation(DnsName, Flatten(rs), Flatten(rs'));
    HostListByNames(rs, rs');
  }

  /** Reordering the instances inside each reservation gives the identical host list. */
  lemma HostListReorderInstances(rs: seq<Reservation>, rs': seq<Reservation>)
    requires |rs| == |rs'|
    requires forall i :: 0 <= i < |rs| ==> multiset(rs[i].instances) == multiset(rs'[i].instances)
    ensures HostList(rs) == HostList(rs')
  {
    ConcatPointwisePermutation(Map(InstancesOf, rs), Map(InstancesOf, rs'));
    MapPermutation(DnsName, Flatten(rs), Flatten(rs'));
    HostListByNames(rs, rs');
  }

  /** Two instances sharing a name and one without a name: nothing is dropped
      or merged, and the empty name sorts first. */
  lemma HostListKeepsDuplicatesAndEmpty()
    ensures HostList([Reservation([Instance("i-1", "h"), Instance("i-2", "")]),
                      Reservation([Instance("i-3", "h")])]) == ["", "h", "h"]
  {
    var r1 := Reservation([Instance("i-1", "h"), Instance("i-2", "")]);
    var r2 := Reservation([Instance("i-3", "h")]);
    FlattenPair(r1, r2);
    var names := Names(Flatten([r1, r2]));
    assert names == ["h", "", "h"] by {
      assert |names| == 3;
      assert names[0] == DnsName(r1.instances[0]);
      assert names[1] == DnsName(r1.instances[1]);
      assert names[2] == DnsName(r2.instances[0]);
    }
    var hosts := ["", "h", "h"];
    assert Sorted(hosts) by {
      LessEqReflexive("h");
    }
    assert multiset(names) == multiset(hosts);
    SortedUnique(HostList([r1, r2]), hosts);
  }

  lemma FlattenPair(r1: Reservation, r2: Reservation)
    ensures Flatten([r1, r2]) == r1.instances + r2.instances
  {
    ConcatMapSnoc(InstancesOf, [], r1);
    ConcatMapSnoc(InstancesOf, [r1], r2);
    assert [] + [r1] == [r1] && [r1] + [r2] == [r1, r2];
  }

  /** The members `i-1` then `i-2` of balancer `lb1` form the allow-list in
      that order. */
  lemma BalancerExampleQuery(listBalancers: string -> seq<Balancer>)
    requires listBalancers("lb1") == [Balancer([Member("i-1"), Member("i-2")])]
    ensures ElbQuery(listBalancers("lb1")) == InstanceQuery(Some(["i-1", "i-2"]), map[])
  {
    var bs := listBalancers("lb1");
    MemberIdsOrder(bs, 0, 0);
    MemberIdsOrder(bs, 0, 1);
    assert bs[..0] == [];
    assert MemberIds(bs) == ["i-1", "i-2"];
  }

  /** Reservations listing `i-2` before `i-1` still give the addresses in
      ascending order. */
  lemma BalancerExampleHosts()
    ensures HostList([Reservation([Instance("i-2", "10.0.0.2")]),
                      Reservation([Instance("i-1", "10.0.0.1")])]) == ["10.0.0.1", "10.0.0.2"]
  {
    var r1 := Reservation([Instance("i-2", "10.0.0.2")]);
    var r2 := Reservation([Instance("i-1", "10.0.0.1")]);
    FlattenPair(r1, r2);
    var names := Names(Flatten([r1, r2]));
    var low, high := "10.0.0.1", "10.0.0.2";
    assert names == [high, low] by {
      assert |names| == 2;
      assert names[0] == DnsName(r1.instances[0]);
      assert names[1] == DnsName(r2.instances[0]);
    }
    assert Sorted([low, high]) by {
      LessEqCommonPrefix("10.0.0.", "1", "2");
      assert "10.0.0." + "1" == low && "10.0.0." + "2" == high;
    }
    assert multiset(names) == multiset([low, high]);
    SortedUnique(HostList([r1, r2]), [low, high]);
  }
}
