/** What holds over whole sequences of runs, each starting from the inventory
    the previous one wrote. */
module InventoryRuns {
  import opened Text
  import opened OrderedDict
  import AddressRanges
  import opened HostNames
  import opened HostTable
  import opened HostTableChanges
  import opened HostOrder
  import opened Inventory
  import opened RoleAssignment
  import opened RoleLayout
  import opened HostOptions
  import opened HostReruns

  datatype Job = Job(cfg: Config, args: seq<string>)

  const NOTHING := State([], map[])

  // A run without arguments shows help and one that fails raises: neither
  // writes the inventory.
  function Next(s: State, job: Job): State {
    match RunResult(job.cfg, s, job.args)
    case Ok(r) => if job.args == [] then s else r
    case Err(_) => s
  }

  predicate Writes(s: State, job: Job) {
    job.args != [] && RunResult(job.cfg, s, job.args).Ok?
  }

  function After(s: State, jobs: seq<Job>): State {
    if jobs == [] then s else Next(After(s, jobs[..|jobs| - 1]), jobs[|jobs| - 1])
  }

  // The naming conditions on one run: all names it leaves have ids, and no host
  // is deleted and named again.
  predicate Disciplined(s: State, job: Job) {
    match AddressRanges.ExpandAll(job.args)
    case Err(_) => true
    case Ok(changed) =>
      NeverReadds(job.cfg.prefix, Start(s.hosts), changed) &&
      match Build(job.cfg.prefix, s.hosts, changed)
      case Ok(t) => AllNumbered(t)
      case Err(_) => true
  }

  // It is enough that the prefix has no dot, or an id, and all names given have
  // ids, and no host is deleted and named again.
  lemma IdsAreDisciplined(s: State, job: Job)
    requires AllNumbered(s.hosts) && ('.' !in job.cfg.prefix || Numbered(job.cfg.prefix))
    requires var expanded := AddressRanges.ExpandAll(job.args);
             expanded.Ok? ==> NeverReadds(job.cfg.prefix, Start(s.hosts), expanded.value) &&
                              forall k :: k in NamesGiven(expanded.value) ==> Numbered(k)
    ensures Disciplined(s, job)
  {
    hide AddressRanges.ExpandAll, Fold, HostId, HighestId, Copied, NamesGiven, NeverReadds;
    if AddressRanges.ExpandAll(job.args).Ok? {
      var prefix, p, changed := job.cfg.prefix, Start(s.hosts), AddressRanges.ExpandAll(job.args).value;
      CopyIsComplete(s.hosts);
      if Fold(prefix, p, changed).Ok? {
        NumberedFold(prefix, p, changed, Fold(prefix, p, changed).value);
      }
    }
  }

  // For instance with a prefix without a dot, when the names given have ids and
  // are not those of hosts.
  lemma CarefulIsDisciplined(s: State, job: Job)
    requires AllNumbered(s.hosts) && '.' !in job.cfg.prefix
    requires var expanded := AddressRanges.ExpandAll(job.args);
             expanded.Ok? ==> forall k :: k in NamesGiven(expanded.value) ==> Numbered(k) && k !in Keys(s.hosts)
    ensures Disciplined(s, job)
  {
    hide AddressRanges.ExpandAll, Fold, HostId, HighestId, Copied, NamesGiven, NeverReadds, NoClash, Disciplined;
    if AddressRanges.ExpandAll(job.args).Ok? {
      var p, changed := Start(s.hosts), AddressRanges.ExpandAll(job.args).value;
      CopyIsComplete(s.hosts);
      DotFreeNeverClashes(job.cfg.prefix, s.hosts, p.nextId + |changed|);
      NewNamesNeverReadd(job.cfg.prefix, p, changed);
    }
    IdsAreDisciplined(s, job);
  }

  // Or with a prefix that has an id, when only addresses are given.
  lemma AddressesAreDisciplined(s: State, job: Job)
    requires AllNumbered(s.hosts) && Numbered(job.cfg.prefix)
    requires var expanded := AddressRanges.ExpandAll(job.args);
             expanded.Ok? ==> AllAddresses(expanded.value)
    ensures Disciplined(s, job)
  {
    hide AddressRanges.ExpandAll, HostId, HighestId, Copied, NamesGiven, NeverReadds, Disciplined, AllAddresses;
    if AddressRanges.ExpandAll(job.args).Ok? {
      var changed := AddressRanges.ExpandAll(job.args).value;
      AddressesNeverReadd(job.cfg.prefix, Start(s.hosts), changed);
      AddressesNameNone(changed);
      NoNamesGiven(changed);
    }
    IdsAreDisciplined(s, job);
  }

  lemma {:induction false} AddressesNeverReadd(prefix: string, p: Progress, args: seq<string>)
    requires AllAddresses(args)
    ensures NeverReadds(prefix, p, args)
  {
    hide Fold;
    if args != [] {
      var init := args[..|args| - 1];
      AddressesNeverReadd(prefix, p, init);
      if Fold(prefix, p, init).Ok? {
        var m := Fold(prefix, p, init).value;
        AddressKeys(prefix, p, init, m);
        assert Keys(p.hosts) == Keys(m.hosts)[..|p.hosts|];
      }
    }
  }

  predicate AllDisciplined(s: State, jobs: seq<Job>) {
    jobs == [] ||
    (AllDisciplined(s, jobs[..|jobs| - 1]) && Disciplined(After(s, jobs[..|jobs| - 1]), jobs[|jobs| - 1]))
  }

  // ----- one group against the host order

  function Longer(a: nat, b: nat): nat {
    if a < b then b else a
  }

  // A group that was a prefix of the old host order, purged and then given a
  // prefix of the new order, is a prefix of the new order.
  lemma GroupFollowsOrder(before: seq<string>, after: seq<string>, j: nat, c: nat)
    requires Unique(after) && StableOrder(before, after) && j <= |before| && c <= |after|
    ensures var kept := Retain(before[..j], ToSet(after));
            |kept| <= j && |kept| <= |after| && AddAll(kept, after[..c]) == after[..Longer(|kept|, c)]
  {
    hide Retain, AddAll;
    var kept := Retain(before[..j], ToSet(after));
    RetainPrefix(before, j, ToSet(after));
    assert kept == after[..|kept|];
    AddPrefixToPrefix(after, |kept|, c);
  }

  // The same, for a role group of an inventory whose hosts all have ids.
  lemma RoleFollowsOrder(cfg: Config, s: State, table: Table, g: string, c: nat)
    requires HasRoles(s.groups) && IsRoleGroup(g) && g in s.groups && AllNumbered(s.hosts)
    requires Unique(Keys(table)) && StableOrder(Keys(s.hosts), Keys(table))
    requires Members(s, g) <= Keys(s.hosts) && c <= |table|
    requires var r := AssignRoles(cfg, s, table);
             HasRoles(r.groups) && NewMembers(cfg, r, Keys(table), g) == Keys(table)[..c]
    ensures var kept := Retain(Members(s, g), ToSet(Keys(table)));
            |kept| <= |Members(s, g)| && |kept| <= |table| &&
            Members(AssignRoles(cfg, s, table), g) == Keys(table)[..Longer(|kept|, c)]
  {
    hide AssignRoles, NewMembers, Retain, AddAll, KeepSet, HostId;
    AssignedShape(cfg, s, table);
    var members, names := Members(s, g), Keys(table);
    assert members == Keys(s.hosts)[..|members|];
    GroupFollowsOrder(Keys(s.hosts), names, |members|, c);
    forall m | m in members
      ensures m in KeepSet(table) <==> m in ToSet(names)
    {
      var i :| 0 <= i < |members| && members[i] == m;
      assert s.hosts[i].key == m;
      RolesAreNotNumbered(m);
      NamesInKeep(table);
    }
    RetainSame(members, KeepSet(table), ToSet(names));
  }

  // ----- etcd

  predicate EtcdInvariant(s: State) {
    var etcd, n := Members(s, "etcd"), |s.hosts|;
    etcd <= Keys(s.hosts) && |etcd| <= 3 && (n >= 1 ==> |etcd| >= 1) && (n >= 3 ==> |etcd| == 3)
  }

  // The members of etcd after a run: the first hosts in order, three of them if
  // there are three, and otherwise one or as many as the purge has left.
  lemma EtcdAfterRun(cfg: Config, s: State, table: Table)
    requires HasRoles(s.groups) && AllNumbered(s.hosts) && EtcdInvariant(s)
    requires Unique(Keys(table)) && StableOrder(Keys(s.hosts), Keys(table))
    ensures var etcd := Members(AssignRoles(cfg, s, table), "etcd");
            var kept := Retain(Members(s, "etcd"), ToSet(Keys(table)));
            && etcd <= Keys(table)
            && |etcd| == (if |table| >= 3 then 3 else if |table| == 0 then 0 else Longer(|kept|, 1))
            && |kept| <= 3 && |kept| <= |table|
  {
    hide AssignRoles, Retain, AddAll, KeepSet, HostId, Keys;
    var names, n := Keys(table), |table|;
    var c := if n >= 3 then 3 else if n == 0 then 0 else 1;
    assert EtcdHosts(names) == names[..c];
    AssignedShape(cfg, s, table);
    RoleFollowsOrder(cfg, s, table, "etcd", c);
  }

  lemma EtcdStays(cfg: Config, s: State, table: Table)
    requires HasRoles(s.groups) && AllNumbered(s.hosts) && EtcdInvariant(s)
    requires Unique(Keys(table)) && StableOrder(Keys(s.hosts), Keys(table))
    ensures EtcdInvariant(AssignRoles(cfg, s, table))
  {
    hide AssignRoles, Retain, HostId, StableOrder;
    EtcdAfterRun(cfg, s, table);
    TableIsWritten(cfg, s, table);
  }

  // The members of etcd that the purge leaves and the slice does not name.
  function EtcdLeft(s: State, table: Table): set<string> {
    set h | h in Members(s, "etcd") && h in KeepSet(table) && h !in EtcdHosts(Keys(table))
  }

  lemma EtcdSize(cfg: Config, s: State, table: Table)
    requires HasRoles(s.groups) && WellFormed(s) && Unique(Keys(table))
    ensures |Members(AssignRoles(cfg, s, table), "etcd")| == |EtcdLeft(s, table)| + |EtcdHosts(Keys(table))|
  {
    hide AssignRoles, EtcdHosts, KeepSet;
    var etcd, slice := Members(AssignRoles(cfg, s, table), "etcd"), EtcdHosts(Keys(table));
    MembersAfter(cfg, s, table, "etcd");
    WellFormedAfter(cfg, s, table);
    SlicesAreUnique(cfg, Keys(table));
    UniqueSize(etcd);
    UniqueSize(slice);
    assert ToSet(etcd) == EtcdLeft(s, table) + ToSet(slice);
    assert EtcdLeft(s, table) !! ToSet(slice);
  }

  // After any successful run on any inventory the number of etcd members is that
  // of the first hosts, plus the old members that are still hosts, or are named
  // like a role, and are not among the first. So with hosts it is odd exactly
  // when the number of those is even.
  lemma EtcdIsOddExactly(cfg: Config, s: State, args: seq<string>, r: State, table: Table)
    requires WellFormed(s) && args != [] && AddressRanges.ExpandAll(args).Ok?
    requires Build(cfg.prefix, s.hosts, AddressRanges.ExpandAll(args).value) == Ok(table)
    requires RunResult(cfg, s, args) == Ok(r)
    ensures var left, n := |EtcdLeft(s, table)|, |table|;
            && |Members(r, "etcd")| == left + (if n >= 3 then 3 else if n == 0 then 0 else 1)
            && (|Members(r, "etcd")| % 2 == 1 <==> (n > 0 <==> left % 2 == 0))
  {
    hide AssignRoles, AddressRanges.ExpandAll, Build, WithGroups, KeepSet;
    PreparedHasRoles(s);
    PreparedMembers(s, "etcd");
    BuildUnique(cfg.prefix, s.hosts, AddressRanges.ExpandAll(args).value, table);
    EtcdSize(cfg, Prepared(s), table);
    assert EtcdLeft(Prepared(s), table) == EtcdLeft(s, table);
  }

  // When the surviving hosts keep their order, the number is odd exactly unless
  // the run leaves no host, or two hosts that both were members before.
  lemma EtcdIsOddInOrder(cfg: Config, s: State, table: Table)
    requires HasRoles(s.groups) && AllNumbered(s.hosts) && EtcdInvariant(s) && WellFormed(s)
    requires Unique(Keys(table)) && StableOrder(Keys(s.hosts), Keys(table))
    ensures |Members(AssignRoles(cfg, s, table), "etcd")| % 2 == 1 <==>
            table != [] && !(|table| == 2 && forall k :: k in Keys(table) ==> k in Members(s, "etcd"))
  {
    hide AssignRoles, Retain, HostId, StableOrder;
    EtcdAfterRun(cfg, s, table);
    var etcd, names := Members(s, "etcd"), Keys(table);
    var kept := Retain(etcd, ToSet(names));
    RetainMembers(etcd, ToSet(names));
    if |table| == 2 {
      UniqueSize(kept);
      UniqueSize(names);
      assert ToSet(kept) <= ToSet(names);
      assert (forall k :: k in names ==> k in etcd) ==> ToSet(kept) == ToSet(names);
      if |kept| == 2 {
        SubsetOfSameSize(ToSet(kept), ToSet(names));
        assert forall k :: k in names ==> k in ToSet(names);
      }
    }
  }

  lemma SubsetOfSameSize(a: set<string>, b: set<string>)
    requires a <= b && |a| == |b|
    ensures a == b
  {
    assert |b - a| == |b| - |a|;
  }

  // For instance: deleting any host of a three-host cluster by name leaves an
  // etcd group of two.
  lemma DeletingOneOfThree(cfg: Config, s: State, x: nat, r: State)
    requires HasRoles(s.groups) && AllNumbered(s.hosts) && WellFormed(s) && EtcdInvariant(s)
    requires |s.hosts| == 3 && x < 3
    requires RunResult(cfg, s, ["-" + s.hosts[x].key]) == Ok(r)
    ensures |r.hosts| == 2 && |Members(r, "etcd")| == 2
  {
    hide AssignRoles, Retain, HostId, StableOrder, WithGroups, Build, Delete, Copied;
    var name := s.hosts[x].key;
    var table := Delete(s.hosts, name);
    AddressRanges.OneArgument("-" + name);
    CopyIsComplete(s.hosts);
    OneDeletion(cfg.prefix, s.hosts, x);
    RolesStay(s);
    DeleteKeys(s.hosts, name);
    SelfStable(s.hosts);
    StableDelete(Keys(s.hosts), s.hosts, name);
    TableIsWritten(cfg, s, table);
    EtcdAfterRun(cfg, s, table);
    assert Members(s, "etcd") == Keys(s.hosts);
    OneLess(s.hosts, x);
  }

  lemma RemoveAt(ks: seq<string>, x: nat)
    requires Unique(ks) && x < |ks|
    ensures Remove(ks, ks[x]) == ks[..x] + ks[x + 1..]
  {
    hide Remove;
    assert ks == ks[..x] + [ks[x]] + ks[x + 1..];
    RemoveBetween(ks[..x], ks[x], ks[x + 1..]);
  }

  lemma KeysWithout(hosts: Table, x: nat)
    requires Unique(Keys(hosts)) && x < |hosts|
    ensures Keys(Delete(hosts, hosts[x].key)) == Keys(hosts)[..x] + Keys(hosts)[x + 1..]
    ensures |Delete(hosts, hosts[x].key)| == |hosts| - 1
  {
    hide Retain, Select, Delete, Unique;
    var ks, name := Keys(hosts), hosts[x].key;
    var keep := ToSet(ks) - {name};
    RemoveAt(ks, x);
    assert forall i :: 0 <= i < |hosts| ==> ks[i] == hosts[i].key;
    DeleteIsSelect(hosts, name, keep);
    SelectKeys(hosts, keep);
    assert Keys(Delete(hosts, name)) == Remove(ks, name);
    assert |ks[..x] + ks[x + 1..]| == |hosts| - 1;
  }

  // What deleting a host and naming it again does to the order.
  lemma HostMovesToEnd(prefix: string, hosts: Table, x: nat, ip: string)
    requires Unique(Keys(hosts)) && x < |hosts| && Copied(hosts) == hosts
    requires CanBeNamed(hosts[x].key) && ',' !in ip
    requires var left := Delete(hosts, hosts[x].key);
             hosts[x].key + "," + ip !in Keys(left) && IpAbsent(left, ip)
    ensures var name := hosts[x].key;
            Build(prefix, hosts, ["-" + name, name + "," + ip]) ==
            Ok(Delete(hosts, name) + [Entry(name, MakeOpts(ip, ip))])
  {
    hide HighestId, Copied, Step, Fold, Delete, MakeOpts, IpAbsent, Put, Unique, CanBeNamed;
    var name, p := hosts[x].key, Start(hosts);
    assert Keys(hosts)[x] == name;
    NameIsDeleted(prefix, p, name);
    var left := Delete(hosts, name);
    assert name !in Keys(left) by { DeleteKeys(hosts, name); }
    HostIsNamed(prefix, p.(hosts := left), name, ip);
    PutNew(left, name, MakeOpts(ip, ip));
    FoldOfTwo(prefix, p, "-" + name, name + "," + ip);
  }

  // For instance: replacing one of the first three of four or more hosts, by
  // deleting it and naming it again with a new ip, leaves four etcd members.
  lemma ReplacingAnEtcdHost(cfg: Config, s: State, x: nat, ip: string)
    requires HasRoles(s.groups) && AllNumbered(s.hosts) && WellFormed(s) && EtcdInvariant(s)
    requires |s.hosts| >= 4 && x < 3 && CanBeNamed(s.hosts[x].key) && ',' !in ip
    requires var left := Delete(s.hosts, s.hosts[x].key);
             s.hosts[x].key + "," + ip !in Keys(left) && IpAbsent(left, ip)
    ensures var name := s.hosts[x].key;
            var result := RunResult(cfg, s, ["-" + name, name + "," + ip]);
            result.Ok? && |Members(result.value, "etcd")| == 4
  {
    hide AssignRoles, HostId, WithGroups, Build, Delete, Copied, IpAbsent, MakeOpts, CanBeNamed, KeepSet;
    var name := s.hosts[x].key;
    var args := ["-" + name, name + "," + ip];
    var table := Delete(s.hosts, name) + [Entry(name, MakeOpts(ip, ip))];
    CopyIsComplete(s.hosts);
    HostMovesToEnd(cfg.prefix, s.hosts, x, ip);
    NotExpanded(name, ip);
    assert RunResult(cfg, s, args).Ok? by { PreparedHasRoles(s); }
    EtcdIsOddExactly(cfg, s, args, RunResult(cfg, s, args).value, table);
    assert Keys(table) == Keys(Delete(s.hosts, name)) + [name];
    LeftByReplacing(s, x, table);
  }

  lemma NotExpanded(name: string, ip: string)
    requires CanBeNamed(name)
    ensures var args := ["-" + name, name + "," + ip];
            AddressRanges.ExpandAll(args) == Ok(args)
  {
    var args := ["-" + name, name + "," + ip];
    AddressRanges.OneArgument(args[0]);
    AddressRanges.OneArgument(args[1]);
    AddressRanges.ExpansionIsPointwise([args[0]], [args[1]]);
    assert args == [args[0]] + [args[1]];
  }

  lemma LeftByReplacing(s: State, x: nat, table: Table)
    requires Unique(Keys(s.hosts)) && EtcdInvariant(s) && |s.hosts| >= 4 && x < 3
    requires Keys(table) == Keys(Delete(s.hosts, s.hosts[x].key)) + [s.hosts[x].key]
    ensures EtcdLeft(s, table) == {s.hosts[x].key} && |table| == |s.hosts|
  {
    hide Delete, EtcdHosts, KeepSet;
    var ks, names := Keys(s.hosts), Keys(table);
    KeysWithout(s.hosts, x);
    NamesInKeep(table);
    assert names == ks[..x] + ks[x + 1..] + [ks[x]];
    SliceOfMoved(ks, x);
    assert Members(s, "etcd") == ks[..3];
    forall h | h in ks[..3]
      ensures h in names
    {
      var i :| 0 <= i < 3 && ks[i] == h;
      assert h == names[if i < x then i else if i == x then |ks| - 1 else i - 1];
    }
    assert ks[..3][x] == ks[x];
  }

  lemma SliceOfMoved(ks: seq<string>, x: nat)
    requires Unique(ks) && |ks| >= 4 && x < 3
    ensures var slice := EtcdHosts(ks[..x] + ks[x + 1..] + [ks[x]]);
            ks[x] !in slice && forall h :: h in ks[..3] && h != ks[x] ==> h in slice
  {
    var names := ks[..x] + ks[x + 1..] + [ks[x]];
    assert EtcdHosts(names) == names[..3];
    forall i | 0 <= i < 3 && i != x
      ensures ks[i] in names[..3]
    {
      assert ks[i] == names[..3][if i < x then i else i - 1];
    }
    forall i | 0 <= i < 3
      ensures names[i] != ks[x]
    {
      assert names[i] == ks[if i < x then i else i + 1];
    }
  }

  lemma OneLess(hosts: Table, x: nat)
    requires Unique(Keys(hosts)) && x < |hosts|
    ensures var table := Delete(hosts, hosts[x].key);
            |table| == |hosts| - 1 && |Retain(Keys(hosts), ToSet(Keys(table)))| == |hosts| - 1
  {
    hide Retain, Delete;
    var table := Delete(hosts, hosts[x].key);
    assert Keys(hosts)[x] == hosts[x].key;
    DeleteKeys(hosts, hosts[x].key);
    RetainMembers(Keys(hosts), ToSet(Keys(table)));
    var kept := Retain(Keys(hosts), ToSet(Keys(table)));
    UniqueSize(Keys(hosts));
    UniqueSize(Keys(table));
    UniqueSize(kept);
    assert ToSet(kept) == ToSet(Keys(table)) == ToSet(Keys(hosts)) - {hosts[x].key};
  }

  lemma SelfStable(hosts: Table)
    ensures StableOrder(Keys(hosts), Keys(hosts))
  {
    PrefixIsStable(hosts, hosts);
  }

  lemma NameIsDeleted(prefix: string, p: Progress, name: string)
    requires name in Keys(p.hosts)
    ensures Step(prefix, p, "-" + name) == Ok(p.(hosts := Delete(p.hosts, name)))
  {
    hide Delete;
    assert ("-" + name)[1..] == name;
  }

  lemma OneDeletion(prefix: string, hosts: Table, x: nat)
    requires x < |hosts| && Copied(hosts) == hosts
    ensures Build(prefix, hosts, ["-" + hosts[x].key]) == Ok(Delete(hosts, hosts[x].key))
  {
    hide HighestId, Copied, Step, Fold, Delete;
    assert Keys(hosts)[x] == hosts[x].key;
    NameIsDeleted(prefix, Start(hosts), hosts[x].key);
    FoldOfOne(prefix, Start(hosts), "-" + hosts[x].key);
  }

  // ----- the control plane and the workers below the scale threshold

  predicate SmallInvariant(s: State, k: nat) {
    Members(s, "kube_control_plane") == FirstOf(Keys(s.hosts), k) &&
    Members(s, "kube_node") == Keys(s.hosts)
  }

  lemma SmallNewMembers(cfg: Config, r: State, names: seq<string>)
    requires HasRoles(r.groups) && |r.hosts| == |names|
    requires cfg.controlHosts >= 0 && |names| < cfg.scale <= cfg.massive
    ensures NewMembers(cfg, r, names, "kube_control_plane") == FirstOf(names, cfg.controlHosts)
    ensures NewMembers(cfg, r, names, "kube_node") == names
  {
    RetainAll(names, set h | h in names && IsWorker(cfg, r, h));
  }

  lemma SmallRole(cfg: Config, s: State, table: Table, g: string, k: nat)
    requires HasRoles(s.groups) && AllNumbered(s.hosts) && IsRoleGroup(g) && g in s.groups
    requires Unique(Keys(table)) && StableOrder(Keys(s.hosts), Keys(table))
    requires Members(s, g) == FirstOf(Keys(s.hosts), k)
    requires var r := AssignRoles(cfg, s, table);
             HasRoles(r.groups) && NewMembers(cfg, r, Keys(table), g) == FirstOf(Keys(table), k)
    ensures Members(AssignRoles(cfg, s, table), g) == FirstOf(Keys(table), k)
  {
    hide AssignRoles, NewMembers, Retain, HostId, StableOrder;
    var c := if k < |table| then k else |table|;
    assert Keys(table)[..|table|] == Keys(table);
    RoleFollowsOrder(cfg, s, table, g, c);
  }

  lemma SmallAfterRun(cfg: Config, s: State, table: Table)
    requires HasRoles(s.groups) && AllNumbered(s.hosts)
    requires Unique(Keys(table)) && StableOrder(Keys(s.hosts), Keys(table))
    requires cfg.controlHosts >= 0 && SmallInvariant(s, cfg.controlHosts)
    requires |table| < cfg.scale <= cfg.massive
    ensures SmallInvariant(AssignRoles(cfg, s, table), cfg.controlHosts)
  {
    hide AssignRoles, NewMembers, FirstOf, HostId, StableOrder;
    AssignedShape(cfg, s, table);
    TableIsWritten(cfg, s, table);
    SmallNewMembers(cfg, AssignRoles(cfg, s, table), Keys(table));
    SmallRole(cfg, s, table, "kube_control_plane", cfg.controlHosts);
    FirstOfAll(Keys(s.hosts));
    FirstOfAll(Keys(table));
    assert Members(s, "kube_node") == FirstOf(Keys(s.hosts), Longer(|s.hosts|, |table|));
    SmallRole(cfg, s, table, "kube_node", Longer(|s.hosts|, |table|));
  }

  lemma FirstOfAll(s: seq<string>)
    ensures forall k :: k >= |s| ==> FirstOf(s, k) == s
  {
  }

  // ----- what a disciplined run keeps

  predicate Sound(s: State) {
    WellFormed(s) && AllNumbered(s.hosts)
  }

  lemma WellFormedAfter(cfg: Config, s: State, table: Table)
    requires HasRoles(s.groups) && WellFormed(s) && Unique(Keys(table))
    ensures WellFormed(AssignRoles(cfg, s, table))
  {
    hide AssignRoles, NewMembers, Retain, AddAll, KeepSet, Select, PutAll;
    AssignedShape(cfg, s, table);
    var r, keep := AssignRoles(cfg, s, table), KeepSet(table);
    SelectKeys(s.hosts, keep);
    RetainMembers(Keys(s.hosts), keep);
    PutAllKeys(Select(s.hosts, keep), table);
    AddAllMembers(Retain(Keys(s.hosts), keep), Keys(table));
    forall g | g in r.groups && g != CLUSTER
      ensures "hosts" in r.groups[g].keys && Unique(r.groups[g].hosts)
    {
      RetainMembers(s.groups[g].hosts, keep);
      AddAllMembers(Retain(s.groups[g].hosts, keep), NewMembers(cfg, r, Keys(table), g));
    }
  }

  // A disciplined run either writes nothing, or writes a table that continues
  // the old host order and assigns the roles by it.
  lemma DisciplinedRun(s: State, job: Job) returns (table: Table)
    requires Sound(s) && Disciplined(s, job)
    ensures Sound(Next(s, job))
    ensures HasRoles(Prepared(s).groups) && Sound(Prepared(s)) && Unique(Keys(table))
    ensures if Writes(s, job) then Next(s, job) == AssignRoles(job.cfg, Prepared(s), table) &&
                                   StableOrder(Keys(s.hosts), Keys(table)) && Next(s, job).hosts == table
            else Next(s, job) == s
  {
    hide AssignRoles, AddressRanges.ExpandAll, Fold, WithGroups, HostId, NeverReadds, StableOrder, NamesGiven;
    table := [];
    PreparedHasRoles(s);
    if Writes(s, job) {
      var changed := AddressRanges.ExpandAll(job.args).value;
      var p, q := Prepared(s), Fold(job.cfg.prefix, Start(s.hosts), changed).value;
      table := q.hosts;
      CopyIsComplete(s.hosts);
      OrderIsStable(job.cfg.prefix, Start(s.hosts), changed, q);
      UniqueFold(job.cfg.prefix, Start(s.hosts), changed);
      TableIsWritten(job.cfg, p, table);
      WellFormedAfter(job.cfg, p, table);
    }
  }

  // Preparing adds only empty groups, which changes no members.
  lemma PreparedMembers(s: State, g: string)
    ensures Members(Prepared(s), g) == Members(s, g)
  {
    GroupsAdded(s.groups, ROLES);
  }

  // ----- all runs

  lemma EtcdNext(s: State, job: Job)
    requires Sound(s) && EtcdInvariant(s) && Disciplined(s, job)
    ensures Sound(Next(s, job)) && EtcdInvariant(Next(s, job))
  {
    hide Disciplined, Next, Writes, HostId, WithGroups, AssignRoles, StableOrder;
    var table := DisciplinedRun(s, job);
    PreparedMembers(s, "etcd");
    if Writes(s, job) {
      EtcdStays(job.cfg, Prepared(s), table);
    }
  }

  lemma {:induction false} EtcdOverRuns(jobs: seq<Job>)
    requires AllDisciplined(NOTHING, jobs)
    ensures Sound(After(NOTHING, jobs)) && EtcdInvariant(After(NOTHING, jobs))
  {
    hide Disciplined, Next, HostId;
    if jobs != [] {
      hide Sound, EtcdInvariant;
      var init, job := jobs[..|jobs| - 1], jobs[|jobs| - 1];
      EtcdOverRuns(init);
      EtcdNext(After(NOTHING, init), job);
    } else {
      assert Keys(NOTHING.hosts) == [];
    }
  }

  // Whatever disciplined runs have been made from nothing, whenever there are
  // at least three hosts the etcd group is exactly the first three of them, in
  // order, although hosts are only ever added to the group and purged from it.
  lemma EtcdIsFirstThree(jobs: seq<Job>)
    requires AllDisciplined(NOTHING, jobs)
    ensures var s := After(NOTHING, jobs);
            |s.hosts| >= 3 ==> Members(s, "etcd") == Keys(s.hosts)[..3]
  {
    EtcdOverRuns(jobs);
  }

  // The runs stay below the scale threshold, with one setting for the number of
  // control plane hosts.
  predicate AllSmall(s: State, jobs: seq<Job>, k: nat) {
    jobs == [] ||
    (AllSmall(s, jobs[..|jobs| - 1], k) &&
     var cfg := jobs[|jobs| - 1].cfg;
     cfg.controlHosts == k && |After(s, jobs).hosts| < cfg.scale <= cfg.massive)
  }

  lemma SmallNext(s: State, job: Job)
    requires Sound(s) && Disciplined(s, job)
    requires job.cfg.controlHosts >= 0 && SmallInvariant(s, job.cfg.controlHosts)
    requires |Next(s, job).hosts| < job.cfg.scale <= job.cfg.massive
    ensures Sound(Next(s, job)) && SmallInvariant(Next(s, job), job.cfg.controlHosts)
  {
    hide Disciplined, Next, Writes, HostId, WithGroups, AssignRoles, StableOrder;
    var table := DisciplinedRun(s, job);
    PreparedMembers(s, "kube_control_plane");
    PreparedMembers(s, "kube_node");
    if Writes(s, job) {
      SmallAfterRun(job.cfg, Prepared(s), table);
    }
  }

  lemma {:induction false} SmallOverRuns(jobs: seq<Job>, k: nat)
    requires AllDisciplined(NOTHING, jobs) && AllSmall(NOTHING, jobs, k)
    ensures Sound(After(NOTHING, jobs)) && SmallInvariant(After(NOTHING, jobs), k)
  {
    hide Disciplined, Next, HostId;
    if jobs != [] {
      hide Sound, SmallInvariant;
      var init, job := jobs[..|jobs| - 1], jobs[|jobs| - 1];
      SmallOverRuns(init, k);
      SmallNext(After(NOTHING, init), job);
    } else {
      assert Keys(NOTHING.hosts) == [];
    }
  }

  // Over disciplined runs that stay below the scale threshold, the control plane
  // is exactly the first KUBE_CONTROL_HOSTS hosts in order, or all of them if
  // fewer, and every host is a worker.
  lemma SmallClusterLayout(jobs: seq<Job>, k: nat)
    requires AllDisciplined(NOTHING, jobs) && AllSmall(NOTHING, jobs, k)
    ensures var s := After(NOTHING, jobs);
            && Members(s, "kube_control_plane") == FirstOf(Keys(s.hosts), k)
            && Members(s, "kube_node") == Keys(s.hosts)
  {
    SmallOverRuns(jobs, k);
  }

  // ----- growing past the scale threshold

  // No run from nothing gives a role group another key than its hosts, or
  // children.
  predicate PlainGroups(s: State) {
    forall g :: g in s.groups && g != CLUSTER ==> s.groups[g].keys == {"hosts"} && s.groups[g].children == {}
  }

  lemma {:induction false} GroupsStayPlain(jobs: seq<Job>)
    ensures PlainGroups(After(NOTHING, jobs))
  {
    hide RunResult;
    if jobs != [] {
      var init, job := jobs[..|jobs| - 1], jobs[|jobs| - 1];
      GroupsStayPlain(init);
      PlainNext(After(NOTHING, init), job);
    }
  }

  lemma PlainNext(s: State, job: Job)
    requires PlainGroups(s)
    ensures PlainGroups(Next(s, job)) && PlainGroups(Prepared(s))
  {
    hide AssignRoles, AddressRanges.ExpandAll, Build, WithGroups, KeepSet, NewMembers, Retain, AddAll, Select, PutAll;
    GroupsAdded(s.groups, ROLES);
    PreparedHasRoles(s);
    if Next(s, job) != s {
      var table := Build(job.cfg.prefix, s.hosts, AddressRanges.ExpandAll(job.args).value).value;
      AssignedShape(job.cfg, Prepared(s), table);
    }
  }

  // The state has the five groups, four of them with only hosts, and the cluster
  // group with only the two children, which are groups.
  predicate FiveGroups(s: State) {
    && s.groups.Keys == {"etcd", "kube_control_plane", "kube_node", "calico_rr", "k8s_cluster"}
    && s.groups["k8s_cluster"] == Group({"children"}, [], {"kube_control_plane", "kube_node"})
    && (forall g :: g in s.groups && g != "k8s_cluster" ==> s.groups[g].keys == {"hosts"} && s.groups[g].children == {})
  }

  lemma {:induction false} NewGroups(groups: map<string, Group>, names: seq<string>)
    ensures forall g :: g in WithGroups(groups, names) <==>
                        g in groups || exists i :: 0 <= i < |names| && names[i] == g != "all"
  {
    if names != [] {
      var init, last := names[..|names| - 1], names[|names| - 1];
      NewGroups(groups, init);
      assert forall i :: 0 <= i < |init| ==> init[i] == names[i];
    }
  }

  lemma PreparedKeys(s: State)
    requires s.groups.Keys <= {"etcd", "kube_control_plane", "kube_node", "calico_rr", "k8s_cluster"}
    ensures Prepared(s).groups.Keys == {"etcd", "kube_control_plane", "kube_node", "calico_rr", "k8s_cluster"}
  {
    hide WithGroups;
    NewGroups(s.groups, ROLES);
    forall g
      ensures g in Prepared(s).groups <==>
                g in {"etcd", "kube_control_plane", "kube_node", "calico_rr", "k8s_cluster"}
    {
      ProtectedNames(g);
      assert g in ROLES <==> exists i :: 0 <= i < |ROLES| && ROLES[i] == g;
    }
  }

  // After any runs from nothing, as soon as one has written, there are exactly
  // these groups.
  lemma {:induction false} GroupsOverRuns(jobs: seq<Job>)
    ensures After(NOTHING, jobs) == NOTHING || FiveGroups(After(NOTHING, jobs))
  {
    if jobs != [] {
      hide RunResult, FiveGroups;
      var init, job := jobs[..|jobs| - 1], jobs[|jobs| - 1];
      var s := After(NOTHING, init);
      GroupsOverRuns(init);
      GroupsStayPlain(jobs);
      if Writes(s, job) {
        FiveGroupsNext(s, job);
      }
    }
  }

  lemma FiveGroupsNext(s: State, job: Job)
    requires (s == NOTHING || FiveGroups(s)) && Writes(s, job) && PlainGroups(Next(s, job))
    ensures FiveGroups(Next(s, job))
  {
    hide AssignRoles, AddressRanges.ExpandAll, Build, WithGroups, KeepSet, NewMembers, Retain, AddAll, Select, PutAll;
    PreparedHasRoles(s);
    PreparedKeys(s);
    var table := Build(job.cfg.prefix, s.hosts, AddressRanges.ExpandAll(job.args).value).value;
    AssignedShape(job.cfg, Prepared(s), table);
    ClusterAfterRun(job.cfg, s, job.args, Next(s, job));
  }

  // The first host of a small cluster is a route reflector after a run at scale.
  lemma FirstHostReflects(cfg: Config, s: State, table: Table, h: string)
    requires HasRoles(s.groups) && PlainGroups(s) && Numbered(h)
    requires |table| >= cfg.scale && h in EtcdHosts(Keys(table))
    ensures h in Members(AssignRoles(cfg, s, table), "calico_rr")
  {
    hide AssignRoles, HostId, EtcdHosts, Retain;
    NotNumbered("hosts") by { HostsIsOnePart(); }
    MembersAfter(cfg, s, table, "calico_rr");
    SameReflecting(cfg, s, table);
    var r, etcd := AssignRoles(cfg, s, table), EtcdHosts(Keys(table));
    RetainMembers(etcd, set h | h in etcd && MayReflect(r.groups, h));
  }

  lemma HostsIsOnePart()
    ensures IndexOf("hosts", '.') == |"hosts"|
  {
    IndexOfIs("hosts", '.', 5);
  }

  // Roles are only ever added: a surviving host of a small cluster stays a
  // worker, and one of the control plane stays there, however the cluster grows.
  // So its first host, if it survives, has all four roles past the threshold
  // that is meant to keep etcd hosts and route reflectors apart.
  lemma OldRolesStay(jobs: seq<Job>, k: nat, job: Job)
    requires AllDisciplined(NOTHING, jobs) && AllSmall(NOTHING, jobs, k) && Disciplined(After(NOTHING, jobs), job)
    ensures var s, r := After(NOTHING, jobs), Next(After(NOTHING, jobs), job);
            && (forall h :: h in Keys(s.hosts) && h in Keys(r.hosts) ==> h in Members(r, "kube_node"))
            && (forall h :: h in FirstOf(Keys(s.hosts), k) && h in Keys(r.hosts) ==>
                  h in Members(r, "kube_control_plane"))
            && (s.hosts != [] && s.hosts[0].key in Keys(r.hosts) ==>
                  && s.hosts[0].key in Members(r, "etcd")
                  && (Writes(s, job) && |r.hosts| >= job.cfg.scale ==> s.hosts[0].key in Members(r, "calico_rr")))
  {
    hide Disciplined, Next, Writes, HostId, WithGroups, AssignRoles, StableOrder, AllDisciplined, AllSmall, KeepSet;
    hide FirstOf, PlainGroups;
    EtcdOverRuns(jobs);
    SmallOverRuns(jobs, k);
    GroupsStayPlain(jobs);
    var s := After(NOTHING, jobs);
    var r := Next(s, job);
    var table := DisciplinedRun(s, job);
    FirstOfMembers(Keys(s.hosts), k);
    PlainNext(s, job);
    if !Writes(s, job) {
      if s.hosts != [] {
        assert Members(s, "etcd")[0] == Keys(s.hosts)[0] == s.hosts[0].key;
      }
    } else {
      var p := Prepared(s);
      PreparedMembers(s, "kube_node");
      PreparedMembers(s, "kube_control_plane");
      NamesInKeep(table);
      MembersAfter(job.cfg, p, table, "kube_node");
      MembersAfter(job.cfg, p, table, "kube_control_plane");
      MembersAfter(job.cfg, p, table, "etcd");
      if s.hosts != [] && s.hosts[0].key in Keys(table) {
        FirstStaysFirst(s.hosts, table);
        if |table| >= job.cfg.scale {
          FirstHostReflects(job.cfg, p, table, s.hosts[0].key);
        }
      }
    }
  }

  lemma FirstOfMembers(ks: seq<string>, k: nat)
    ensures forall h :: h in FirstOf(ks, k) ==> h in ks
  {
  }

  lemma FirstStaysFirst(hosts: Table, table: Table)
    requires StableOrder(Keys(hosts), Keys(table)) && hosts != [] && hosts[0].key in Keys(table)
    ensures hosts[0].key in EtcdHosts(Keys(table))
  {
    hide Retain;
    var before, names := Keys(hosts), Keys(table);
    RetainConcat(before[..1], before[1..], ToSet(names));
    assert before == before[..1] + before[1..] && before[..1] == [hosts[0].key];
    RetainOne(hosts[0].key, ToSet(names));
    assert Retain(before, ToSet(names))[0] == hosts[0].key;
    assert EtcdHosts(names)[0] == names[0] == hosts[0].key;
  }

  // For instance: one address in a first run and one in a second, with the
  // threshold at two hosts. Given in one run, they would be kept apart.
  lemma GrowingPastScale(cfg: Config, a: string, b: string)
    requires cfg.scale == 2 <= cfg.massive && cfg.controlHosts >= 1
    requires cfg.prefix != "" && IsAlpha(cfg.prefix[0]) && '.' !in cfg.prefix && TrailingDigits(cfg.prefix) == ""
    requires IsAddress(a) && IsAddress(b) && a != b
    requires ',' !in a && ',' !in b && '-' !in a && '-' !in b
    ensures var r, h := After(NOTHING, [Job(cfg, [a]), Job(cfg, [b])]), Generated(cfg.prefix, 1);
            && |r.hosts| == 2 && h in Members(r, "etcd") && h in Members(r, "calico_rr")
            && h in Members(r, "kube_control_plane") && h in Members(r, "kube_node")
  {
    hide Next, Writes, Disciplined, Generated, HostId, TrailingDigits, Sound, Members;
    var job, job' := Job(cfg, [a]), Job(cfg, [b]);
    TwoRuns(cfg, a, b);
    var s := After(NOTHING, [job]);
    assert [job, job'][..1] == [job] && [job][..0] == [];
    assert After(NOTHING, [job, job']) == Next(s, job');
    OldRolesStay([job], cfg.controlHosts, job');
    assert Keys(s.hosts)[0] == s.hosts[0].key;
  }

  lemma TwoRuns(cfg: Config, a: string, b: string)
    requires cfg.prefix != "" && IsAlpha(cfg.prefix[0]) && '.' !in cfg.prefix && TrailingDigits(cfg.prefix) == ""
    requires IsAddress(a) && IsAddress(b) && a != b
    requires ',' !in a && ',' !in b && '-' !in a && '-' !in b
    ensures var job, job', h := Job(cfg, [a]), Job(cfg, [b]), Generated(cfg.prefix, 1);
            var s := After(NOTHING, [job]);
            && Disciplined(NOTHING, job) && Disciplined(s, job')
            && |s.hosts| == 1 && s.hosts[0].key == h
            && Writes(s, job') && |Next(s, job').hosts| == 2 && h in Keys(Next(s, job').hosts)
  {
    hide Next, Writes, Disciplined, Generated, MakeOpts, HostId, TrailingDigits, Sound, Step;
    var job, prefix := Job(cfg, [a]), cfg.prefix;
    var first, second := Entry(Generated(prefix, 1), MakeOpts(a, a)), Entry(Generated(prefix, 2), MakeOpts(b, b));
    assert [job][..0] == [];
    assert After(NOTHING, [job]) == Next(NOTHING, job);
    FirstAddress(prefix, a);
    NothingIsSound();
    OneMoreHost(NOTHING, cfg, a, first);
    GeneratedId(prefix, 1);
    StartOfOne(first, 1);
    SecondAddress(prefix, a, b, None);
    if Generated(prefix, 1) == Generated(prefix, 2) {
      GeneratedInjective(prefix, 1, 2);
    }
    OneMoreHost(Next(NOTHING, job), cfg, b, second);
    assert Keys([first, second])[0] == first.key;
  }

  lemma NothingIsSound()
    ensures Sound(NOTHING) && Start(NOTHING.hosts) == Progress([], 1, None, None)
  {
    assert Keys(NOTHING.hosts) == [];
  }

  // A run with one new address adds one host at the end.
  lemma OneMoreHost(s: State, cfg: Config, a: string, e: Entry<Opts>)
    requires Sound(s) && '.' !in cfg.prefix && IsAddress(a) && '-' !in a
    requires Step(cfg.prefix, Start(s.hosts), a).Ok? && Step(cfg.prefix, Start(s.hosts), a).value.hosts == s.hosts + [e]
    requires e.key !in Keys(s.hosts)
    ensures var job := Job(cfg, [a]);
            Disciplined(s, job) && Writes(s, job) && Next(s, job).hosts == s.hosts + [e] && Sound(Next(s, job))
  {
    hide Step, AssignRoles, HostId, WithGroups;
    var table := s.hosts + [e];
    AddressRanges.OneArgument(a);
    FoldOfOne(cfg.prefix, Start(s.hosts), a);
    NoNamesGiven([a]);
    CopyIsComplete(s.hosts);
    CarefulIsDisciplined(s, Job(cfg, [a]));
    PreparedHasRoles(s);
    assert Keys(table) == Keys(s.hosts) + [e.key];
    PrefixIsStable(s.hosts, table);
    TableIsWritten(cfg, Prepared(s), table);
    var written := DisciplinedRun(s, Job(cfg, [a]));
  }
}
