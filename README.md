# EC2 host resolution in Dafny

This project models the host-resolution logic of `EC2Service` in
`aws/libaws/ec2.py`, a command-line tool over boto. The tool uses it to find
the machines that Fabric tasks run on. The modelled behaviour is:

- `list(elb=None, *args, **kwargs)` chooses the boto call. With a load-balancer
  name it returns `list_in_elb(name)` and drops every other argument. Without one,
  it passes its arguments unchanged to `get_all_instances`.
- `list_in_elb(name)` lists the balancers matching `name`. It joins their
  registered instances, balancer after balancer. It then asks
  `get_all_instances` for exactly those instance ids.
- `resolve_instances(reservations)` appends the instances of every reservation
  to one list, keeping the order.
- `resolve_hosts(reservations)` takes each resolved instance's
  `public_dns_name` and sorts the names in place with `list.sort()`.

The two boto calls are function parameters, and nothing is assumed about them.
`listBalancers` stands for the ELB service's `list(name)`, which is
`get_all_load_balancers`. `getAllInstances` stands for the EC2 connection's
`get_all_instances`. The model proves which call is made with which arguments,
and what is done with the result.

Files:

- `ec2.dfy` (module `Ec2`): the records `Instance`, `Reservation`, `Member` and
  `Balancer`, and `InstanceQuery`, which holds the arguments of one
  `get_all_instances` call. It also holds the four operations and the lemmas
  about them.
- `string_order.dfy` (module `StringOrder`): Python's `<=` on strings as
  `LessEq`, with total-order lemmas. It also holds a reference sort `Sort`,
  the fact that a sorted list is fixed by its multiset (`SortedUnique`), and an
  in-place insertion sort on an `array<string>` standing for `hosts.sort()`.
- `seqs.dfy` (module `Seqs`): a list comprehension (`Map`), joining nested lists
  (`Concat`), and their order and permutation lemmas.

Strings are compared code point by code point, and a proper prefix sorts first.
That is Python's order for `str` and `unicode`. For the ASCII DNS names EC2
returns it is also byte order.

The code does the following, which a reader might not expect:

- The code does not deduplicate host names, and it does not drop empty ones.
  Every instance contributes exactly one name (ec2.py:41). `HostList`,
  `ResolveHosts` and `HostListKeepsDuplicatesAndEmpty` state this.
- The code does not require exactly one matching balancer. It joins the
  members of every balancer the listing returns. If no balancer matches, the
  allow-list is empty (`MemberIdsEmpty`); it is not an error.
- The order of what `get_all_instances` returns is left to boto. The model
  only fixes the argument it receives.

## Model

| member | source | states |
|---|---|---|
| `Ec2.List` | aws/libaws/ec2.py:15-18 | With a balancer name, the result is the instance fetch for that balancer's members, and the caller's query has no influence. Without a name, the caller's query goes to `get_all_instances` unchanged. |
| `Ec2.ListInElb` | aws/libaws/ec2.py:20-27 | The result is `get_all_instances` applied to exactly one query. Its allow-list is the member ids of every returned balancer, and it has no other filters. |
| `Ec2.MemberIdsOrder` | aws/libaws/ec2.py:21-27 | The allow-list has one entry per member. Member `j` of balancer `i` sits after all members of earlier balancers, so the order is balancer order, then member order, with duplicates kept. |
| `Ec2.MemberIdsLength` | aws/libaws/ec2.py:21-27 | The allow-list is as long as the sum of the balancers' member counts. |
| `Ec2.MemberIdsEmpty` | aws/libaws/ec2.py:21-27 | The allow-list is empty if and only if every returned balancer has no members. This includes the case where no balancer matches. |
| `Ec2.BalancerExampleQuery` | aws/libaws/ec2.py:20-27 | A balancer `lb1` with members `i-1`, `i-2` gives the call with allow-list `["i-1", "i-2"]` and no other filters. |
| `Ec2.ResolveInstances` | aws/libaws/ec2.py:32-37 | The nested append loops return the reservations' instance lists joined in input order. The length is the sum of the instance counts. |
| `Ec2.FlattenLength` | aws/libaws/ec2.py:33-36 | The resolved list is as long as the sum of the reservations' instance counts. |
| `Ec2.FlattenOrder` | aws/libaws/ec2.py:33-36 | Instance `j` of reservation `i` sits at position (instances of reservations before `i`) + `j`: reservations in input order, instances in their own order. |
| `Ec2.FlattenEmpty` | aws/libaws/ec2.py:33-37 | The resolved list is empty if and only if there are no reservations or all of them are empty. |
| `Ec2.ResolveHosts` | aws/libaws/ec2.py:39-43 | The result is sorted ascending. It is a permutation of the resolved instances' DNS names, of the same length, with duplicates and empty names kept, and it equals `HostList`. |
| `Ec2.HostList` | aws/libaws/ec2.py:40-42 | The host list is sorted. It has the same multiset as the projected names and one entry per instance. |
| `Ec2.HostListByNames` | aws/libaws/ec2.py:40-42 | Two reservation lists whose instances carry the same multiset of names give the identical host list. |
| `Ec2.HostListReorderReservations` | aws/libaws/ec2.py:40-42 | Reordering the reservations gives the identical host list. |
| `Ec2.HostListReorderInstances` | aws/libaws/ec2.py:40-42 | Reordering the instances inside each reservation gives the identical host list. |
| `Ec2.HostListKeepsDuplicatesAndEmpty` | aws/libaws/ec2.py:41-42 | Names `h`, empty, `h` give `["", "h", "h"]`: nothing is merged or dropped, and the empty name sorts first. |
| `Ec2.BalancerExampleHosts` | aws/libaws/ec2.py:40-42 | Instances listed as `10.0.0.2` then `10.0.0.1` give `["10.0.0.1", "10.0.0.2"]`. |
| `StringOrder.LessEq` | aws/libaws/ec2.py:42 | Python's `<=` on `str`: code points compared from the left, the first difference decides, a proper prefix sorts first. Its order laws are the four rows below. |
| `Seqs.Map` | aws/libaws/ec2.py:27 | The comprehensions `[i.id for i in instances]` (line 27) and `[i.public_dns_name for i in instances]` (line 41): one projected value per element, same length, same order. |
| `StringOrder.LessEqReflexive` | aws/libaws/ec2.py:42 | Every name is `<=` itself. |
| `StringOrder.LessEqTotal` | aws/libaws/ec2.py:42 | Any two names are comparable. |
| `StringOrder.LessEqAntisymmetric` | aws/libaws/ec2.py:42 | Names that are `<=` each other are equal. |
| `StringOrder.LessEqTransitive` | aws/libaws/ec2.py:42 | `<=` is transitive. |
| `StringOrder.LessEqCommonPrefix` | aws/libaws/ec2.py:42 | A shared prefix does not change the order of two names. |
| `StringOrder.Insert` | aws/libaws/ec2.py:42 | Inserting a name into a sorted list keeps it sorted and adds exactly that name to its multiset. |
| `StringOrder.Sort` | aws/libaws/ec2.py:42 | The reference sort returns a sorted permutation of its input, of the same length. |
| `StringOrder.SortedUnique` | aws/libaws/ec2.py:42 | Two sorted lists with the same multiset are equal, so the sorted result does not depend on the input order. |
| `StringOrder.SortInPlace` | aws/libaws/ec2.py:42 | `hosts.sort()` leaves the array sorted, as a permutation of its old contents, equal to `Sort` of the old contents. |
| `StringOrder.SinkInto` | aws/libaws/ec2.py:42 | One insertion step grows the sorted prefix by one element, keeps the array's multiset, and leaves the part after the step unchanged. |

## Left out

- The boto connections (`ec2.connect_to_region`, `elb.connect_to_region`) and the
  region settings read in the constructors are not modelled. The two listing calls
  are uninterpreted function parameters. Their network behaviour, the exceptions
  they raise, and what boto does with an empty `instance_ids`
  list are outside the model.
- `InstanceQuery` models `*args, **kwargs` of `list` as an optional id allow-list
  plus a map of other keyword arguments. Positional forms beyond
  `instance_ids` are not distinguished.
- `Instance.publicDnsName` is a string. boto's unset default `None`, which
  Python 2 sorts before every string, is not modelled; an empty name stands in
  for a missing one.
- `list.sort()` is Timsort. The model sorts by insertion. For strings under a
  total order the result is unique (`SortedUnique`), so only the algorithm
  differs, not the result.
- The pass-throughs `regions`, `start`, `stop`, `terminate`, `create_image` and
  `images` (aws/libaws/ec2.py:29-30, 45-58) are single boto calls with no logic
  of their own.
- aws/main.py (argument parsing, output formatting, and the Fabric dispatch in
  `ec2_fab`, which sets global `fab.env` state and runs tasks in parallel),
  aws/libaws/conf.py (configuration file I/O), aws/libaws/elb.py,
  aws/libaws/autoscale.py, aws/libaws/service.py (connection set-up and one-call
  forwards) and setup.py (packaging) are not part of this model.
