# Verification of the inventory builder, the Terraform state reader and the test runner

Three programs of this repository decide things by logic of their own; the rest is declarative input to other tools. This project models the three in Dafny and proves what holds for all their inputs and, for the inventory builder, over all sequences of runs. `dafny verify dfyconfig.toml` checks everything.

**Inventory builder** (`contrib/inventory_builder/inventory.py`). The host table is an insertion-ordered dictionary, a role group an ordered set of names. `Inventory.KubesprayInventory` is the class with its methods that change fields in place; each method is proved equal to a function on states, and the theorems are about those functions.

- `OrderedDict`, `Text`: ordered dictionaries, decimal numerals, splitting and joining.
- `AddressRanges`: `range2ips`. `HostNames`: `get_host_id` against generated names.
- `HostTable`: `build_hostnames`, argument by argument. `HostArguments`: what the characters of an argument say. `HostTableChanges`, `HostOrder`, `HostSurvival` and `HostOptions`: what an argument list does to the hosts, their order, their survival and their options. `HostReruns`: giving the same addresses again.
- `Inventory`: the class and one whole run. `RoleAssignment`, `RoleLayout`: what one run makes of the groups. `InventoryRuns`: invariants over sequences of runs.

**Terraform state reader** (`contrib/terraform/terraform.py`). `AttributeFlattening` is `convert_to_v3_structure`, `AttributeKeys` the distinctness and number of its keys, `AttributePaths` their meaning as paths through the tree, `AttributeReading` the readers by prefix, `HostQuery` the two queries.

**Test runner** (`tests/shebang-unit`). `XmlText` is the text encoder, `Shuffle` the array randomizer, `TestRunner` the runner over its database of counters, `TestAccounting` what the counters mean, `TestOrder` what random order changes.

Some modelling decisions:

- A run is lines 96-117 of the constructor; the command words of line 92 are dispatched before that. Runs start from a parsed inventory, as the unit tests do (line 88 stores a generator where a mapping is meant). Thresholds, host prefix and number of control plane hosts are parameters (`Config`), the number may be negative and the slices then follow Python.
- Exceptions are `Err` results, among them a host without `ip`, a wrong number of comma-separated fields, and a bare name that reads variables no earlier argument has set. A bare name after an earlier argument reads that argument's name and addresses, as in the source (`HostTable.Progress`).
- `\d+$` also matches before a final newline, and the id is read from the part before the first dot. Text is ASCII.
- A string inside a list of a state attribute carries the random number drawn for its key, so a theorem about all trees is one about all draws.
- How a shell function ends may depend on everything that was run before it (`TestRunner.History`), and so may whether a test file is sourced to its end.
- A run is called disciplined if all host names it leaves have ids, and it brings no host back that it deletes (`InventoryRuns.Disciplined`).
- The random source of the shuffle is an arbitrary function from call number to value.

Where the code does less than its documentation or its tests suggest, the model follows the code, and the lemmas named say when it happens:

- `etcd` need not have an odd number of members. With hosts it has exactly when the number of old members that stay and are not among the first hosts is even (`InventoryRuns.EtcdIsOddExactly`). Deleting one of three hosts leaves two (`InventoryRuns.DeletingOneOfThree`), and replacing one of the first three of more hosts under its old name leaves four (`InventoryRuns.ReplacingAnEtcdHost`). If the surviving hosts keep their order, only a run that leaves no host, or two hosts which both were members, fails (`InventoryRuns.EtcdIsOddInOrder`).
- From the scale threshold on `etcd` is meant to be apart from the other roles, but an inventory that grows past it keeps the roles its hosts had (`RoleLayout.RolesApartExactly`, `InventoryRuns.OldRolesStay`, `InventoryRuns.GrowingPastScale`).
- The copy loop of `build_hostnames` drops every host after the first one without an id (`HostOrder.CopyIsComplete`). Hence a prefix that has a dot and no id makes a second run lose hosts (`HostReruns.DottedPrefixLosesHosts`). A prefix that has a dot and an id gives all generated names the same id, and a later run overwrites a host instead of adding one (`HostReruns.DottedPrefixOverwrites`), so that giving the same addresses again need not give the same hosts (`HostReruns.DottedPrefixRebuilds`). When it does, for any prefix, is told by `HostReruns.RebuildExactly` and `RoleAssignment.RunningTwiceExactly`, and when an old host is overwritten by `HostSurvival.DeletedExactly`.
- A generated name can overwrite a host that a named argument of the same run has added (`HostTableChanges.GeneratedNameOverwritesNamedHost`). It was in the table before exactly when a named argument of the run has given it with effect or, which takes a dot in the prefix, it is an old host's name (`HostTableChanges.GeneratedIsFreshExactly`).
- A named argument for an existing host overwrites its options, because the test looks at the whole argument (`HostOptions.OptionsLostExactly`, `HostOptions.NamingAgainOverwrites`).
- The conflict tests of `set_calico_rr` look at the keys of a group's mapping, so they reject only a host named like such a key, which is `hosts` in an inventory built from nothing, and no member of the groups. Route reflectors are apart from workers and control plane exactly when the past allows it (`RoleLayout.ReflectorsApartExactly`); past the scale threshold the first host of a small cluster is all of these at once (`InventoryRuns.OldRolesStay`, `InventoryRuns.GrowingPastScale`).
- `parse_dict` loses a map entry whose key is `#`, and an entry whose key is `%` replaces the count (`AttributeReading.MapRoundTrip`).
- An `exit 0` in a test's set-up or tear-down hides its failure (`TestAccounting.SuccessExactly`), and a test file that exits while it is sourced loses its tests unless an earlier file left its mark (`TestAccounting.CountedExactly`, `TestAccounting.LostTests`).
- Random order can change counters when a test depends on what was run before it (`TestOrder.RandomOrderCanMatter`). For tests that do not, it does exactly if one file leaves the mark of a failed global set-up and another one with tests exits while it is sourced (`TestOrder.RandomOrderChangesNothing`, `TestOrder.RandomOrderMattersOtherwise`).

## Model

| member | source | states |
|---|---|---|
| AddressRanges.ParseOfFormat | contrib/inventory_builder/inventory.py:235-241 | Every integer below 2^32, printed as an address, parses back to itself |
| AddressRanges.FormatOfParse | contrib/inventory_builder/inventory.py:235-241 | Every well-formed address is the printed form of the integer it parses to, so the notation is unique |
| AddressRanges.OctetsInOrder | contrib/inventory_builder/inventory.py:241 | The printed form is the four octets in decimal, the most significant first |
| AddressRanges.RangesToAddresses | contrib/inventory_builder/inventory.py:243-252 | The loop computes the concatenation of the arguments' expansions, or the first error |
| AddressRanges.RangeExpansion | contrib/inventory_builder/inventory.py:232-247 | A range of two addresses a-b is exactly max(0, b - a + 1) distinct addresses that parse to a, a + 1, ..., b in order |
| AddressRanges.ExpansionIsPointwise | contrib/inventory_builder/inventory.py:243-252 | Arguments expand independently and in place; the first error decides |
| AddressRanges.OneArgument | contrib/inventory_builder/inventory.py:250-251 | An argument that is not a range passes through unchanged |
| AddressRanges.ExpandedExactly | contrib/inventory_builder/inventory.py:243-251 | An argument with a dash that begins with neither a dash nor a letter is accepted if and only if it is two addresses with a dash between them, in any whitespace; every other argument passes through unchanged |
| AddressRanges.RangeWithoutSpace | contrib/inventory_builder/inventory.py:243-249 | One that begins with a digit and ends in no whitespace is accepted if and only if it is exactly two addresses and the dash |
| AddressRanges.ListExpandedExactly | contrib/inventory_builder/inventory.py:243-252 | A list is expanded if and only if each of its arguments is accepted |
| AddressRanges.SomeRanges | contrib/inventory_builder/tests/test_inventory.py:301-314 | The expansion of a list with a range, and the failure of one whose end is no address |
| HostNames.GeneratedId | contrib/inventory_builder/inventory.py:153-159 | The id read from a generated name is at least the number printed into it, and equal to it when the prefix does not end in a digit |
| HostNames.GeneratedInjective | contrib/inventory_builder/inventory.py:206 | Different numbers give different generated names |
| HostNames.DomainIsIgnored | contrib/inventory_builder/inventory.py:156 | A domain after the first dot does not change the id |
| HostNames.DottedPrefixHidesId | contrib/inventory_builder/inventory.py:156-157 | With a dot in the prefix the id of a generated name no longer depends on its number |
| HostNames.GeneratedIsNumbered | contrib/inventory_builder/inventory.py:153-159 | So a generated name has an id if and only if the prefix has no dot or has an id |
| HostNames.GeneratedIsNumeral | contrib/inventory_builder/inventory.py:206 | A generated name is the prefix and the number in decimal, without leading zeros |
| HostNames.SomeGeneratedNames | contrib/inventory_builder/inventory.py:206 | Three generated names, written out |
| HostNames.HostIdExactly | contrib/inventory_builder/inventory.py:153-159 | The id is the number that the digits at the end of the part before the first dot denote, not counting a final newline; without such digits there is none |
| HostTable.ExistsIp | contrib/inventory_builder/inventory.py:257-261 | The scan answers whether a host has the ip, or raises at the first host without one if that comes earlier |
| HostTable.DeleteHostByIp | contrib/inventory_builder/inventory.py:263-268 | Deletes the first host with the ip and nothing else, and raises when there is none |
| HostTable.CopyExisting | contrib/inventory_builder/inventory.py:162-171 | The copy loop yields the hosts up to and including the first one without an id, and the highest id among them |
| HostTable.BuildHostnames | contrib/inventory_builder/inventory.py:161-227 | The loop is the fold of one step per argument over the copied hosts, and stops at the first error |
| HostTableChanges.ArgumentFields | contrib/inventory_builder/inventory.py:188-217 | The fields of address, pair and named arguments become host name, ip and access ip as separated by commas, the access ip defaulting to the ip |
| HostArguments.PairExactly | contrib/inventory_builder/inventory.py:188-192 | An address argument is read as ip and access ip if and only if it is these with a comma between them, or one without a comma for both |
| HostArguments.NamedExactly | contrib/inventory_builder/inventory.py:212-217 | A named argument with a comma is read as name, ip and access ip if and only if it is these with commas between them, or a name and one address for both |
| HostArguments.AddressOptions | contrib/inventory_builder/inventory.py:208-210 | An address argument describes exactly the options `ansible_host` and `access_ip` with the access ip, and `ip` with the ip |
| HostArguments.GivenExactly | contrib/inventory_builder/inventory.py:211-226 | A named argument writes exactly these options under its name, or, without a comma, those of the last addresses under the last name, if and only if no host has the ip and the whole argument is no host's name |
| HostArguments.AcceptedExactly | contrib/inventory_builder/inventory.py:178-226 | When every host has an ip, an argument fails if and only if it is empty, has too many fields for its first character, or is a bare name for which no earlier argument has left what it needs |
| HostArguments.BuiltExactly | contrib/inventory_builder/inventory.py:161-227 | So building the table succeeds if and only if every argument is acceptable when it is reached |
| HostArguments.AcceptedWithoutChange | contrib/inventory_builder/inventory.py:178-186 | Deleting what is no host's name or ip changes nothing, and neither does an argument that begins with neither dash, digit nor letter |
| HostArguments.LeftForLater | contrib/inventory_builder/inventory.py:188-217 | An argument leaves its addresses, and a named one its name, for later bare names |
| HostArguments.BuiltOptions | contrib/inventory_builder/inventory.py:161-227 | Every host of the resulting table is an old one with its options or has as options exactly the ip and access ip of some argument |
| HostArguments.OnePair | contrib/inventory_builder/tests/test_inventory.py:316-323 | A first run with one address pair gives the host with number one exactly these options |
| HostTableChanges.StepChange | contrib/inventory_builder/inventory.py:178-226 | One argument makes exactly one change, and which one is told by the table: it removes the host it names, or else the first one with its ip; it adds one generated host if it is an address no host has; it assigns the named host if no host has the ip; and it leaves the table alone in all other cases only |
| HostTableChanges.UniqueFold | contrib/inventory_builder/inventory.py:177-227 | No argument list makes a host name occur twice |
| HostTableChanges.IpsStayDistinct | contrib/inventory_builder/inventory.py:177-227 | If the hosts' ips are pairwise distinct before, they are after any argument list, overwriting ones included, and no run fails for a missing ip |
| HostTableChanges.AboveHighest | contrib/inventory_builder/inventory.py:163-174 | With a prefix without a dot, a number above the highest id generates the name of no copied host |
| HostTableChanges.HighestIdIsAttained | contrib/inventory_builder/inventory.py:163-171 | The highest id is that of a copied host, or zero |
| HostTableChanges.PresentNames | contrib/inventory_builder/inventory.py:163-226 | The names that were in the table at some moment of a run are exactly those copied, those a named argument gave with effect, and those generated |
| HostTableChanges.GeneratedIsFreshExactly | contrib/inventory_builder/inventory.py:174-210 | With any prefix, the next generated name was in the table before, copied, deleted or generated, if and only if it is the name of a host the run started from or a named argument of the run has given it with effect |
| HostTableChanges.GeneratedNamesAreFresh | contrib/inventory_builder/inventory.py:174-210 | With a prefix without a dot a generated name that no named argument has is new, and its host is appended |
| HostTableChanges.GeneratedNameOverwritesNamedHost | contrib/inventory_builder/inventory.py:206-226 | A run in which a generated name is not new: the named host is overwritten and its address is lost |
| HostOrder.CopyIsComplete | contrib/inventory_builder/inventory.py:164-171 | All hosts are copied exactly when every host but possibly the last has an id |
| HostOrder.NumberedFold | contrib/inventory_builder/inventory.py:177-227 | Host names keep having ids when the names given have ids and the prefix has no dot or has an id |
| HostOrder.OrderIsStable | contrib/inventory_builder/inventory.py:177-227 | Unless a deleted host is named again, the surviving hosts come first and in their old order, for all argument lists |
| HostOrder.NewNamesNeverReadd | contrib/inventory_builder/inventory.py:177-227 | For that it is enough to name only new hosts, if none of the next numbers generates the name of an old one |
| HostOrder.BuildFrame | contrib/inventory_builder/inventory.py:161-227 | After address and deletion arguments the table is the survivors, with their options, of the old hosts in their order and then of the added ones, one per address no host has when its argument is reached, in argument order and under consecutive numbers, if and only if no host that is left has both an old name and one of these numbers' names; with a prefix without a dot that always holds |
| HostSurvival.AddedExactly | contrib/inventory_builder/inventory.py:187-210 | With any prefix, such an address gives a host that is in the resulting table if and only if no later argument is its name or, unless the ip is a host name, its ip with a leading dash |
| HostSurvival.TargetedIsDeleted | contrib/inventory_builder/inventory.py:179-186 | A deletion argument removes a host if and only if it is its name, or is no name and the host is the first one with it as ip |
| HostSurvival.SurvivesExactly | contrib/inventory_builder/inventory.py:178-210 | Over address and deletion arguments, from any table and with any prefix, a host whose name is not generated stays with its options if it is not targeted, goes for good if it is named with a leading dash, and also if its ip is given and is no name and no other host's |
| HostSurvival.DeletedExactly | contrib/inventory_builder/inventory.py:178-210 | A host of the inventory that no argument targets keeps its entry if and only if none of the numbers used generates its name, which holds with a prefix without a dot; if it holds and its ip is no name and no other host's, the host disappears if and only if some argument is its name or its ip with a leading dash |
| HostReruns.AddressesAreAbsorbed | contrib/inventory_builder/inventory.py:187-210 | If none of the numbers used generates the name of an old host, an address run leaves the old hosts and then one new host per new address, and every address given belongs to a host |
| HostReruns.RebuildExactly | contrib/inventory_builder/inventory.py:161-210 | From hosts with ids and with any prefix, building again with the same addresses gives the same table if and only if all hosts of the first result are copied and every address given belongs to one of them |
| HostReruns.RebuildChangesNothing | contrib/inventory_builder/inventory.py:187-210 | With a prefix without a dot it always does |
| HostReruns.DottedPrefixRebuilds | contrib/inventory_builder/inventory.py:164-210 | With a prefix that has a dot and an id it does not for one host that has the next number and two addresses, although all names have ids |
| HostReruns.DottedPrefixLosesHosts | contrib/inventory_builder/inventory.py:164-210 | With a dotted prefix that has no id the same two addresses given twice leave one host |
| HostReruns.DottedPrefixOverwrites | contrib/inventory_builder/inventory.py:164-210 | With a dotted prefix that has an id a run over generated hosts that include the number after it adds no host for a new address but overwrites that one |
| HostOptions.WrittenExactly | contrib/inventory_builder/inventory.py:187-226 | What one argument writes: under the prefix and the next number, its own name or the last name, with exactly the three options of its fields or of the last addresses, if and only if no host has the ip and the whole argument is no host's name |
| HostOptions.EntryAfterRun | contrib/inventory_builder/inventory.py:177-227 | After any argument list and with any prefix a host that is still there has its old options, or those of the last argument that wrote under its name |
| HostOptions.OptionsLostExactly | contrib/inventory_builder/inventory.py:187-226 | So it has lost its options if and only if that argument gives others |
| HostOptions.OnlyNamedArguments | contrib/inventory_builder/inventory.py:187-226 | With a prefix without a dot only named arguments write under an old name |
| HostOptions.NamingAgainOverwrites | contrib/inventory_builder/inventory.py:211-226 | A run that names a host of the inventory with a new ip gives exactly that host new options |
| Inventory.KubesprayInventory.EnsureRequiredGroups | contrib/inventory_builder/inventory.py:140-151 | Adds the missing groups, empty, and changes nothing else |
| Inventory.KubesprayInventory.PurgeInvalidHosts | contrib/inventory_builder/inventory.py:270-285 | Keeps in the host table and in every group but k8s_cluster exactly the names to keep, in order |
| Inventory.KubesprayInventory.AddHostToGroup | contrib/inventory_builder/inventory.py:287-298 | The host becomes a member of the group, last if it is new, and nothing else changes |
| Inventory.KubesprayInventory.SetAll | contrib/inventory_builder/inventory.py:304-306 | Writes the whole table over the host table |
| Inventory.KubesprayInventory.SetRole | contrib/inventory_builder/inventory.py:300-302 | Adds the given hosts to one group, in order |
| Inventory.KubesprayInventory.SetKubeNode | contrib/inventory_builder/inventory.py:326-340 | Adds the hosts no size threshold excludes to kube_node |
| Inventory.KubesprayInventory.SetCalicoRr | contrib/inventory_builder/inventory.py:313-324 | Adds the hosts that are no key of the two groups' mappings to calico_rr |
| Inventory.KubesprayInventory.Run | contrib/inventory_builder/inventory.py:96-117 | The new state is that of a run as a function of the old one; a failing run only adds missing groups |
| RoleAssignment.EveryHostHasARole | contrib/inventory_builder/inventory.py:326-340 | From any inventory and with any thresholds every resulting host is in etcd, kube_control_plane or kube_node |
| RoleAssignment.HostsAreConsistent | contrib/inventory_builder/inventory.py:279-306 | The host table has exactly the computed hosts and options, apart from earlier entries named like a role |
| RoleAssignment.MembersAreConsistent | contrib/inventory_builder/inventory.py:270-344 | A member of any group but k8s_cluster is a computed host, or an earlier member named like a role |
| RoleAssignment.RunIsConsistent | contrib/inventory_builder/inventory.py:96-117 | The three statements above for a whole run from any inventory |
| RoleAssignment.RunFailsExactly | contrib/inventory_builder/inventory.py:96-117 | A run fails if and only if some argument asks for a range and is none, or the table cannot be built |
| RoleAssignment.PurgedExactly | contrib/inventory_builder/inventory.py:270-285 | The purge keeps exactly the hosts and members to keep, and leaves k8s_cluster alone |
| RoleAssignment.ProtectedNames | contrib/inventory_builder/inventory.py:47-49 | The names protected from the purge are the six of the groups |
| RoleAssignment.ClusterAfterRun | contrib/inventory_builder/inventory.py:308-311 | After any successful run with arguments, from any inventory, k8s_cluster has only the key `children`, no hosts, and exactly the children kube_control_plane and kube_node |
| RoleAssignment.AssigningTwiceIsOnce | contrib/inventory_builder/inventory.py:101-114 | Purging and assigning roles for the same table again changes nothing |
| RoleAssignment.RunningTwiceExactly | contrib/inventory_builder/inventory.py:96-117 | From hosts with ids, with any prefix and any thresholds, the same addresses and ranges given twice give the same hosts, options, order and groups as given once if and only if all hosts of the first result are copied and every address belongs to one of them |
| RoleAssignment.RunningTwiceIsOnce | contrib/inventory_builder/inventory.py:96-117 | With a prefix without a dot they always do |
| RoleLayout.EtcdApartFromControlPlane | contrib/inventory_builder/inventory.py:104-108 | From the scale threshold on, etcd and control plane hosts are disjoint, also for a negative number of control plane hosts |
| RoleLayout.NegativeSlices | contrib/inventory_builder/inventory.py:106-111 | What a negative number of control plane hosts selects, in a small cluster and at scale |
| RoleLayout.LayoutFromEmpty | contrib/inventory_builder/inventory.py:104-114 | The division of the hosts among empty groups below, from, and above both thresholds; from the second threshold the three roles are disjoint and their sizes sum to the number of hosts |
| RoleLayout.MembersExactly | contrib/inventory_builder/inventory.py:101-114 | From any groups, a host is in etcd, kube_control_plane, kube_node or calico_rr after a run if and only if it was and the purge leaves it, or the run gives it the role, as told by the state before and the numbers of hosts |
| RoleLayout.RolesApartExactly | contrib/inventory_builder/inventory.py:104-112 | From any groups, a run at scale leaves etcd apart from workers and from the control plane, and at massive scale these two apart, if and only if no host the purge leaves in one of them is or becomes a member of the other |
| RoleLayout.ReflectorsApartExactly | contrib/inventory_builder/inventory.py:313-324 | From any groups, calico_rr is apart from kube_node, and from kube_control_plane, if and only if none of its members that stay is or becomes a member of the other, and no new one stays in the other |
| InventoryRuns.EtcdAfterRun | contrib/inventory_builder/inventory.py:101-105 | If etcd was a prefix of the host order, of three hosts if there were three, and the surviving hosts keep their order, etcd after a run is such a prefix again: of three hosts if there are three, else of one or of as many as the purge left |
| InventoryRuns.EtcdIsOddExactly | contrib/inventory_builder/inventory.py:96-117 | After any successful run on any inventory etcd has three members, or one if there are fewer than three hosts, plus the old members that stay and are not among the first hosts; so with hosts it is odd if and only if the number of those is even |
| InventoryRuns.EtcdIsOddInOrder | contrib/inventory_builder/inventory.py:104-105 | If etcd was a prefix of the host order and the surviving hosts keep their order, the number is odd if and only if the run leaves some host, and not just two hosts that both were members |
| InventoryRuns.ReplacingAnEtcdHost | contrib/inventory_builder/inventory.py:104-105 | Deleting one of the first three of four or more hosts and naming it again with a new ip leaves four etcd members |
| InventoryRuns.DeletingOneOfThree | contrib/inventory_builder/inventory.py:104-105 | Deleting one host of a three-host cluster leaves two etcd members |
| InventoryRuns.IdsAreDisciplined | contrib/inventory_builder/inventory.py:153-227 | A run is disciplined if its prefix has no dot or has an id, the names it gives have ids, and it brings no deleted host back |
| InventoryRuns.AddressesAreDisciplined | contrib/inventory_builder/inventory.py:153-227 | With a prefix that has an id, dotted or not, every run with addresses only is disciplined |
| InventoryRuns.EtcdIsFirstThree | contrib/inventory_builder/inventory.py:98-117 | After any disciplined runs from nothing, whenever there are three hosts, etcd is exactly the first three in order |
| InventoryRuns.SmallClusterLayout | contrib/inventory_builder/inventory.py:106-112 | Over disciplined runs below the scale threshold the control plane is exactly the first hosts in order and kube_node is all hosts in order |
| InventoryRuns.OldRolesStay | contrib/inventory_builder/inventory.py:101-114 | In any disciplined run after disciplined runs below the scale threshold, surviving hosts stay workers, those of the control plane stay there, and the first host, if it survives, is in etcd and, if the run reaches the threshold, in calico_rr as well |
| InventoryRuns.GrowingPastScale | contrib/inventory_builder/inventory.py:104-114 | Two runs, of one address each, reach the scale threshold with one host in all four groups |
| InventoryRuns.GroupsOverRuns | contrib/inventory_builder/inventory.py:96-117 | After any runs from nothing, as soon as one has written, there are exactly five groups: four with only a `hosts` entry, and k8s_cluster with exactly its two children, which are groups |
| AttributeFlattening.ConvertToV3 | contrib/terraform/terraform.py:41-60 | The in-place conversion yields the emitted entries written one after the other, and raises exactly when a list reached by it holds something other than a string or an object |
| AttributeKeys.ConvertibleExactly | contrib/terraform/terraform.py:45-60 | The conversion succeeds if and only if no list in the tree holds something other than a string or an object |
| AttributeKeys.ItemUnderPrefix | contrib/terraform/terraform.py:41-60 | Flattening under a prefix is prefixing every key of the flattening |
| AttributeKeys.AttrsDistinct | contrib/terraform/terraform.py:48-60 | With distinct, dot-free attribute names and no map key `%`, all flat keys are distinct, whatever numbers are drawn |
| AttributeKeys.FlatteningIsInjective | contrib/terraform/terraform.py:48-60 | So the dictionary is the list of emitted entries: nothing is merged or lost |
| AttributeKeys.FlatSize | contrib/terraform/terraform.py:48-60 | It has one entry per scalar, list string and map entry, plus one per map and per non-empty list |
| AttributePaths.KeysArePaths | contrib/terraform/terraform.py:41-60 | With distinct, dot-free attribute names and no map key `%`, a key of the converted dictionary is a path through the tree with dots between its parts, and its value is the scalar, map value, count or list string the path leads to |
| AttributeReading.ReadPrefix | contrib/terraform/terraform.py:154-164 | The generator yields the entries under the prefix and separator without the count mark, in order |
| AttributeReading.ReadAttrList | contrib/terraform/terraform.py:167-173 | The loop groups the entries by position, and raises at one without a separator |
| AttributeReading.MatchingOfCollapsed | contrib/terraform/terraform.py:154-164 | Reading by prefix a dictionary written entry by entry is writing what is read by prefix, overwritten keys included |
| AttributeReading.GroupedIs | contrib/terraform/terraform.py:167-173 | There is one group per first part, in order of first appearance, written from the entries under it; grouping raises if and only if some key has no separator |
| AttributeReading.GroupedOfCollapsed | contrib/terraform/terraform.py:167-173 | Grouping a dictionary written entry by entry is grouping the entries |
| AttributeReading.StringListRoundTrip | contrib/terraform/terraform.py:180-181 | If its name has no dot and is the first part of no other attribute's name, a flattened list of strings is read back from what the conversion returns in order with its duplicates, whatever numbers were drawn and whatever else the tree holds |
| AttributeReading.MapRoundTrip | contrib/terraform/terraform.py:176-177 | Under the same condition a flattened map is read back from what the conversion returns without a key `#`, written over its count entry; exactly after that entry if no key is `%` |
| AttributeReading.AttrListRoundTrip | contrib/terraform/terraform.py:167-173 | Under the same condition a flattened list is read back from what the conversion returns as the flattening of each of its elements that has an entry, in order, whatever the names inside them |
| HostQuery.QueryList | contrib/terraform/terraform.py:369-385 | For any order of iterating the group sets, each group but `_meta` lists its hosts in tuple order, and the host variables are those of the last tuple per name |
| HostQuery.ListedExactly | contrib/terraform/terraform.py:373-380 | A host is listed under a group if and only if a tuple for it carries the group, the empty name counting as `all` |
| HostQuery.ListedInOrder | contrib/terraform/terraform.py:369-385 | With distinct names a group lists its hosts in the order of their tuples |
| HostQuery.ListedHowOften | contrib/terraform/terraform.py:374-380 | With distinct names a host is listed once per group, twice only under `all` when it also carries the empty name |
| HostQuery.QueryHost | contrib/terraform/terraform.py:361-366 | The search returns the attributes of the first tuple with the name, or none |
| HostQuery.FirstAndLast | contrib/terraform/terraform.py:361-385 | The search answers with the first tuple for a name, the index with the last |
| HostQuery.LookupsAgree | contrib/terraform/terraform.py:361-385 | With distinct host names both know the same names and the same attributes |
| XmlText.ReplacementsAreOneEncoding | tests/shebang-unit:802-809 | The five replacements in a row equal one character-by-character encoding |
| XmlText.EncodeText | tests/shebang-unit:802-809 | The five assignments compute that encoding |
| XmlText.EncodePointwise | tests/shebang-unit:802-809 | The encoding of a text is that of its parts, one after the other |
| XmlText.EncodedCharacters | tests/shebang-unit:802-809 | The five special characters become their predefined entities, every other one stays |
| XmlText.DecodeOfEncode | tests/shebang-unit:802-809 | Decoding the predefined entities undoes the encoding, for every text |
| XmlText.EncodedTextIsSafe | tests/shebang-unit:802-809 | The output has no raw markup or quote character, and every ampersand begins one of the five entities |
| XmlText.EncodeOfDecode | tests/shebang-unit:802-809 | Every text like that is the encoding of what it decodes to |
| Shuffle.RandomizeArray | tests/shebang-unit:932-940 | The loop terminates and prints the elements in the order of their removal |
| Shuffle.ShuffledIsPermutation | tests/shebang-unit:932-940 | For any random source the result is a permutation |
| Shuffle.EveryPermutationIsPossible | tests/shebang-unit:932-944 | Every permutation of at most 32768 elements comes out for some random source |
| TestRunner.Runner.Increment | tests/shebang-unit:383-387 | Reading, adding one and storing as text changes one counter by one |
| TestRunner.Runner.TestFunctions | tests/shebang-unit:246-264 | The selected public functions that are not set-up or tear-down, shuffled if asked for |
| TestRunner.Runner.RunTestFile | tests/shebang-unit:215-302 | A file's tests are all judged, one after the other, or all skipped when its global set-up fails or exits |
| TestRunner.Runner.RunAllTestFiles | tests/shebang-unit:181-212 | The counters after all files, and success exactly when none failed and none was skipped |
| TestAccounting.SuccessExactly | tests/shebang-unit:390-434 | When a test is counted as a success, in terms of how the functions `setup`, the test and `teardown` end, an absent one counting as success |
| TestAccounting.SetUpExactly | tests/shebang-unit:266-289 | A file is set up if and only if it has no function `global_setup` or that returns with success |
| TestAccounting.SelectedConcat | tests/shebang-unit:246-256 | Functions are selected one after the other, in order |
| TestAccounting.SelectedOne | tests/shebang-unit:246-280 | A function is selected if and only if the pattern selects it and it is none of the four set-up and tear-down functions by name |
| TestAccounting.FailingSetupFailsAll | tests/shebang-unit:390-434 | When a file's set-up fails for every test, all its selected tests are counted as failing |
| TestAccounting.FailingSetupFailsRun | tests/shebang-unit:181-212 | A run with such a file and a selected test in it is unsuccessful |
| TestAccounting.OneOutcomePerTest | tests/shebang-unit:232-264 | Every selected test of a sourced file has exactly one outcome: its own, after the tests before it, or skipped with all others |
| TestOrder.CountersAreOutcomes | tests/shebang-unit:191-207 | If no file depends on what was run before, and not both some file leaves the mark of a failed global set-up and some file with tests exits while sourced, the counters count the outcomes in declaration order, with random order on or off |
| TestAccounting.RunSucceedsExactly | tests/shebang-unit:181-212 | Any run succeeds if and only if every file sourced to its end has no selected test, or is set up and passes them all when they are run, and no other file with selected tests finds the mark of a failed global set-up |
| TestAccounting.EveryTestIsCountedOnce | tests/shebang-unit:209-212 | If all files are sourced to their end, whatever tests do to each other, the counters sum to the number of selected tests, and the run succeeds if and only if every file with selected tests is set up and all its tests pass when they are run |
| TestOrder.RandomOrderChangesNothing | tests/shebang-unit:201-207 | Under the same conditions random order changes no counter |
| TestOrder.RandomOrderMattersOtherwise | tests/shebang-unit:201-207 | If no file depends on what was run before, and both some file leaves the mark and some file with tests exits while sourced, some random order changes a counter |
| TestOrder.RandomOrderCanMatter | tests/shebang-unit:201-207 | A file with a test that needs another one to be run before it has other counters in random order |
| TestAccounting.MarkExactly | tests/shebang-unit:215-300 | A file finds the mark of a failed global set-up if and only if the last file before it that was sourced to its end has left it |
| TestAccounting.CountedExactly | tests/shebang-unit:181-224 | The counters of any run sum to the selected tests of the files that are sourced to their end or find that mark |
| TestAccounting.LostTests | tests/shebang-unit:220-224 | A single file that exits while sourced loses its tests and the run still succeeds |

## Left out

- Reading and writing YAML, JSON and shell environment, `print_*`, `show_help`, `debug` and `load_file`: input and output only.
- The `USE_REAL_HOSTNAME` branch of `build_hostnames`, which runs ssh.
- IPv6 ranges: `AddressRanges.Expand` reports them as invalid addresses. Octets with leading zeros are rejected, as the `ipaddress` module does from Python 3.9.5 on.
- Non-ASCII digits, letters and spaces, which Python's character tests also accept.
- A `hosts` entry that is null in the parsed file is read as empty; the source differs only when kube_control_plane has a null entry in a run at massive scale that adds no control plane host. Host options that are not a mapping are not modelled.
- Top-level keys of the inventory other than `all`, and the variables of groups and members; a group is its keys, members and children.
- `packet_device`, `openstack_host`, floating ips, `tfstates` and argument parsing in the Terraform reader: field copying.
- Reporters, colours, mocks, timers and file descriptors of the test runner; a test that changes the runner's database or functions, or depends on the time.
- RunAllTestFiles: requires a database without the global set-up mark and an empty history, since `database__initialise` makes a new one for each process and the history is that of the run.
- `library/kube.py`, the AWS inventory, the scripts under `scripts/`, playbooks, roles and Terraform definitions.
