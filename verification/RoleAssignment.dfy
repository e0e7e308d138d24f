/** What one run makes of the role groups, for any starting inventory. */
module RoleAssignment {
  import opened Text
  import opened OrderedDict
  import opened AddressRanges
  import opened HostNames
  import opened HostTable
  import HostTableChanges
  import opened HostOrder
  import opened HostReruns
  import opened Inventory

  function Members(s: State, g: string): seq<string> {
    if g in s.groups then s.groups[g].hosts else []
  }

  predicate IsRoleGroup(g: string) {
    g == "etcd" || g == "kube_control_plane" || g == "kube_node" || g == "calico_rr"
  }

  // The hosts a run adds to a group, given the state it leaves.
  function NewMembers(cfg: Config, r: State, names: seq<string>, g: string): seq<string>
    requires HasRoles(r.groups)
  {
    if g == "etcd" then EtcdHosts(names)
    else if g == "kube_control_plane" then ControlPlaneHosts(cfg, names)
    else if g == "kube_node" then WorkerHosts(cfg, r, names)
    else if g == "calico_rr" && |names| >= cfg.scale then ReflectorHosts(r.groups, EtcdHosts(names))
    else []
  }

  lemma SameWorkers(cfg: Config, r: State, t: State, names: seq<string>)
    requires HasRoles(r.groups) && HasRoles(t.groups) && |r.hosts| == |t.hosts|
    requires t.groups["etcd"].hosts == r.groups["etcd"].hosts
    requires t.groups["kube_control_plane"].hosts == r.groups["kube_control_plane"].hosts
    ensures WorkerHosts(cfg, r, names) == WorkerHosts(cfg, t, names)
  {
    assert (set h | h in names && IsWorker(cfg, r, h)) == (set h | h in names && IsWorker(cfg, t, h));
  }

  lemma SameReflectors(r: State, t: State, names: seq<string>)
    requires HasRoles(r.groups) && HasRoles(t.groups)
    requires t.groups["kube_node"].keys == r.groups["kube_node"].keys
    requires t.groups["kube_control_plane"].keys == r.groups["kube_control_plane"].keys
    ensures ReflectorHosts(r.groups, names) == ReflectorHosts(t.groups, names)
  {
    assert (set h | h in names && MayReflect(r.groups, h)) == (set h | h in names && MayReflect(t.groups, h));
  }

  lemma GroupShape(cfg: Config, s: State, table: Table, g: string)
    requires HasRoles(s.groups) && g in s.groups && g != CLUSTER
    ensures var r := AssignRoles(cfg, s, table);
            HasRoles(r.groups) && g in r.groups &&
            r.groups[g] == s.groups[g].(hosts := AddAll(Retain(s.groups[g].hosts, KeepSet(table)),
                                                        NewMembers(cfg, r, Keys(table), g)))
  {
    hide KeepSet, EtcdHosts, ControlPlaneHosts, WorkerHosts, ReflectorHosts, Retain, Select, PutAll, Keys;
    var names := Keys(table);
    var s1 := Rewritten(s, table);
    var s2 := WithRole(s1, "etcd", EtcdHosts(names));
    var s3 := WithRole(s2, "kube_control_plane", ControlPlaneHosts(cfg, names));
    var s4 := WithRole(s3, "kube_node", WorkerHosts(cfg, s3, names));
    var r := AssignRoles(cfg, s, table);
    assert s1.groups[g] == s.groups[g].(hosts := Retain(s.groups[g].hosts, KeepSet(table)));
    if g == "kube_node" {
      assert r.groups["etcd"] == s3.groups["etcd"] && r.groups["kube_control_plane"] == s3.groups["kube_control_plane"];
      SameWorkers(cfg, s3, r, names);
    } else if g == "calico_rr" {
      SameReflectors(s4, r, EtcdHosts(names));
    }
  }

  // A run as one equation per group: what the purge keeps, then the new members.
  lemma AssignedShape(cfg: Config, s: State, table: Table)
    requires HasRoles(s.groups)
    ensures var r := AssignRoles(cfg, s, table);
            && HasRoles(r.groups) && r.groups.Keys == s.groups.Keys
            && r.hosts == PutAll(Select(s.hosts, KeepSet(table)), table)
            && r.groups[CLUSTER] == CLUSTER_GROUP
            && forall g :: g in s.groups && g != CLUSTER ==>
                 r.groups[g] == s.groups[g].(hosts := AddAll(Retain(s.groups[g].hosts, KeepSet(table)),
                                                             NewMembers(cfg, r, Keys(table), g)))
  {
    hide KeepSet, EtcdHosts, ControlPlaneHosts, WorkerHosts, ReflectorHosts, NewMembers;
    hide Retain, AddAll, Select, PutAll, Keys;
    forall g | g in s.groups && g != CLUSTER {
      GroupShape(cfg, s, table, g);
    }
  }

  lemma NamesInKeep(table: Table)
    ensures forall k :: k in Keys(table) ==> k in KeepSet(table)
    ensures forall k :: k in KeepSet(table) ==> k in Keys(table) || k in ROLES
  {
  }

  lemma NewMembersAreNames(cfg: Config, r: State, names: seq<string>, g: string)
    requires HasRoles(r.groups)
    ensures forall h :: h in NewMembers(cfg, r, names, g) ==> h in names
  {
    var etcd := EtcdHosts(names);
    forall h | h in NewMembers(cfg, r, names, g)
      ensures h in names
    {
      if g == "kube_node" {
        RetainMembers(names, set h | h in names && IsWorker(cfg, r, h));
      } else if g == "calico_rr" {
        RetainMembers(etcd, set h | h in etcd && MayReflect(r.groups, h));
      }
    }
  }

  // ----- every host has a role

  lemma EveryHostHasARole(cfg: Config, s: State, table: Table, h: string)
    requires HasRoles(s.groups) && h in Keys(table)
    ensures var r := AssignRoles(cfg, s, table);
            h in Members(r, "etcd") || h in Members(r, "kube_control_plane") || h in Members(r, "kube_node")
  {
    hide AssignRoles, EtcdHosts, ControlPlaneHosts, Retain, AddAll;
    AssignedShape(cfg, s, table);
    var r, names := AssignRoles(cfg, s, table), Keys(table);
    if IsWorker(cfg, r, h) {
      var workers := set h | h in names && IsWorker(cfg, r, h);
      RetainMembers(names, workers);
      AddAllMembers(Retain(s.groups["kube_node"].hosts, KeepSet(table)), WorkerHosts(cfg, r, names));
    }
  }

  // ----- referential integrity

  // The host table holds the computed hosts with the computed options, and
  // otherwise only earlier entries named like a role.
  lemma HostsAreConsistent(cfg: Config, s: State, table: Table)
    requires HasRoles(s.groups) && Unique(Keys(table))
    ensures var r := AssignRoles(cfg, s, table);
            && (forall k :: k in Keys(r.hosts) <==> k in Keys(table) || (k in Keys(s.hosts) && k in ROLES))
            && (forall k :: k in Keys(table) ==> Lookup(r.hosts, k) == Lookup(table, k))
  {
    hide AssignRoles, Retain, AddAll, NewMembers, KeepSet;
    AssignedShape(cfg, s, table);
    NamesInKeep(table);
    var r, names, keep := AssignRoles(cfg, s, table), Keys(table), KeepSet(table);
    SelectKeys(s.hosts, keep);
    RetainMembers(Keys(s.hosts), keep);
    PutAllKeys(Select(s.hosts, keep), table);
    AddAllMembers(Retain(Keys(s.hosts), keep), names);
    ProtectedIsKept(table);
    forall k | k in names
      ensures Lookup(r.hosts, k) == Lookup(table, k)
    {
      LookupPutAll(Select(s.hosts, keep), table, k);
    }
  }

  // Every member of a group other than k8s_cluster is a computed host, or an
  // earlier member of the group named like a role.
  lemma MembersAreConsistent(cfg: Config, s: State, table: Table, g: string, m: string)
    requires HasRoles(s.groups) && g in s.groups && g != CLUSTER
    requires m in Members(AssignRoles(cfg, s, table), g)
    ensures m in Keys(table) || (m in s.groups[g].hosts && m in ROLES)
  {
    hide AssignRoles, Retain, AddAll, NewMembers, KeepSet;
    AssignedShape(cfg, s, table);
    NamesInKeep(table);
    var r, names, keep := AssignRoles(cfg, s, table), Keys(table), KeepSet(table);
    AddAllMembers(Retain(s.groups[g].hosts, keep), NewMembers(cfg, r, names, g));
    RetainMembers(s.groups[g].hosts, keep);
    NewMembersAreNames(cfg, r, names, g);
  }

  lemma ProtectedIsKept(table: Table)
    ensures forall k :: k in ROLES ==> k in KeepSet(table)
  {
  }

  // After a successful run on any inventory the host table is the computed one
  // up to entries named like a role, group members are hosts up to the same
  // names, and every computed host has a role.
  lemma RunIsConsistent(cfg: Config, s: State, args: seq<string>, r: State, table: Table)
    requires WellFormed(s) && args != [] && ExpandAll(args).Ok?
    requires Build(cfg.prefix, s.hosts, ExpandAll(args).value) == Ok(table)
    requires RunResult(cfg, s, args) == Ok(r)
    ensures forall k :: k in Keys(r.hosts) <==> k in Keys(table) || (k in Keys(s.hosts) && k in ROLES)
    ensures forall k :: k in Keys(table) ==> Lookup(r.hosts, k) == Lookup(table, k)
    ensures forall g, m :: g in r.groups && g != CLUSTER && m in Members(r, g) ==>
              m in Keys(table) || (m in Members(s, g) && m in ROLES)
    ensures forall h :: h in Keys(table) ==>
              h in Members(r, "etcd") || h in Members(r, "kube_control_plane") || h in Members(r, "kube_node")
  {
    hide AssignRoles, ExpandAll, Build, WithGroups, KeepSet, Select, PutAll;
    PreparedHasRoles(s);
    GroupsAdded(s.groups, ROLES);
    var p := Prepared(s);
    assert r == AssignRoles(cfg, p, table);
    AssignedShape(cfg, p, table);
    BuildUnique(cfg.prefix, s.hosts, ExpandAll(args).value, table);
    HostsAreConsistent(cfg, p, table);
    forall g, m | g in r.groups && g != CLUSTER && m in Members(r, g)
      ensures m in Keys(table) || (m in Members(s, g) && m in ROLES)
    {
      MembersAreConsistent(cfg, p, table, g, m);
    }
    forall h | h in Keys(table)
      ensures h in Members(r, "etcd") || h in Members(r, "kube_control_plane") || h in Members(r, "kube_node")
    {
      EveryHostHasARole(cfg, p, table, h);
    }
  }

  // ----- assigning the same table twice

  lemma HostsWrittenTwice(hosts: Table, table: Table, keep: set<string>)
    requires Unique(Keys(hosts)) && Unique(Keys(table))
    requires forall k :: k in Keys(table) ==> k in keep
    ensures var once := PutAll(Select(hosts, keep), table);
            PutAll(Select(once, keep), table) == once
  {
    hide Select, PutAll, Retain;
    var kept := Select(hosts, keep);
    var once := PutAll(kept, table);
    SelectKeys(hosts, keep);
    RetainMembers(Keys(hosts), keep);
    PutAllKeys(kept, table);
    AddAllMembers(Keys(kept), Keys(table));
    forall i | 0 <= i < |once|
      ensures once[i].key in keep
    {
      assert Keys(once)[i] in Keys(once);
    }
    SelectAll(once, keep);
    PutAllKeys(once, table);
    AddAllPresent(Keys(once), Keys(table));
    forall k | k in Keys(once)
      ensures Lookup(once, k) == Lookup(PutAll(once, table), k)
    {
      LookupPutAll(once, table, k);
      LookupPutAll(kept, table, k);
    }
    SameDict(once, PutAll(once, table));
  }

  lemma GroupWrittenTwice(ms: seq<string>, hs: seq<string>, keep: set<string>)
    requires forall h :: h in hs ==> h in keep
    ensures var once := AddAll(Retain(ms, keep), hs);
            AddAll(Retain(once, keep), hs) == once
  {
    hide Retain, AddAll;
    RetainMembers(ms, keep);
    AddAllMembers(Retain(ms, keep), hs);
    var once := AddAll(Retain(ms, keep), hs);
    RetainAll(once, keep);
    AddAllPresent(once, hs);
  }

  // Roles depend only on the host table and what the first assignment left, so
  // assigning the same table again changes nothing, whatever the thresholds.
  lemma AssigningTwiceIsOnce(cfg: Config, s: State, table: Table)
    requires HasRoles(s.groups) && WellFormed(s) && Unique(Keys(table))
    ensures HasRoles(AssignRoles(cfg, s, table).groups)
    ensures AssignRoles(cfg, AssignRoles(cfg, s, table), table) == AssignRoles(cfg, s, table)
  {
    hide AssignRoles, Retain, AddAll, KeepSet, Select, PutAll, EtcdHosts, ControlPlaneHosts;
    AssignedShape(cfg, s, table);
    var r, names, keep := AssignRoles(cfg, s, table), Keys(table), KeepSet(table);
    AssignedShape(cfg, r, table);
    var t := AssignRoles(cfg, r, table);
    NamesInKeep(table);
    HostsWrittenTwice(s.hosts, table, keep);
    TwiceForGroup(cfg, s, table, "etcd");
    TwiceForGroup(cfg, s, table, "kube_control_plane");
    assert IsRoleGroup("etcd") && "etcd" != CLUSTER && "kube_control_plane" != CLUSTER;
    assert t.groups["etcd"] == r.groups["etcd"] && t.groups["kube_control_plane"] == r.groups["kube_control_plane"];
    forall g | g in r.groups
      ensures t.groups[g] == r.groups[g]
    {
      if g != CLUSTER {
        SameNewMembers(cfg, r, t, names, g);
        TwiceForGroup(cfg, s, table, g);
      }
    }
    assert t.groups == r.groups;
  }

  lemma TwiceForGroup(cfg: Config, s: State, table: Table, g: string)
    requires HasRoles(s.groups) && g in s.groups && g != CLUSTER
    ensures var r := AssignRoles(cfg, s, table);
            HasRoles(r.groups) && g in r.groups &&
            AddAll(Retain(r.groups[g].hosts, KeepSet(table)), NewMembers(cfg, r, Keys(table), g)) == r.groups[g].hosts
  {
    hide AssignRoles, Retain, AddAll, KeepSet, NewMembers;
    AssignedShape(cfg, s, table);
    var r := AssignRoles(cfg, s, table);
    NamesInKeep(table);
    NewMembersAreNames(cfg, r, Keys(table), g);
    GroupWrittenTwice(s.groups[g].hosts, NewMembers(cfg, r, Keys(table), g), KeepSet(table));
  }

  // What a run adds to a group depends on the state it leaves only through the
  // number of hosts, two groups' members and two groups' keys.
  lemma SameNewMembers(cfg: Config, r: State, t: State, names: seq<string>, g: string)
    requires HasRoles(r.groups) && HasRoles(t.groups) && |r.hosts| == |t.hosts|
    requires g == "kube_node" ==> t.groups["etcd"].hosts == r.groups["etcd"].hosts
    requires g == "kube_node" ==> t.groups["kube_control_plane"].hosts == r.groups["kube_control_plane"].hosts
    requires t.groups["kube_node"].keys == r.groups["kube_node"].keys
    requires t.groups["kube_control_plane"].keys == r.groups["kube_control_plane"].keys
    ensures NewMembers(cfg, r, names, g) == NewMembers(cfg, t, names, g)
  {
    hide EtcdHosts, ControlPlaneHosts, WorkerHosts, ReflectorHosts;
    if g == "kube_node" {
      SameWorkers(cfg, r, t, names);
    }
    SameReflectors(r, t, EtcdHosts(names));
  }

  // ----- running twice

  lemma {:induction false} PreparedTwice(groups: map<string, Group>, names: seq<string>)
    requires forall i :: 0 <= i < |names| && names[i] != "all" ==> names[i] in groups
    ensures WithGroups(groups, names) == groups
  {
    if names != [] {
      PreparedTwice(groups, names[..|names| - 1]);
    }
  }

  lemma {:induction false} ExpandedAddresses(args: seq<string>)
    requires ExpandAll(args).Ok? && AllAddresses(args)
    ensures AllAddresses(ExpandAll(args).value)
  {
    if args != [] {
      var front, last := args[..|args| - 1], args[|args| - 1];
      ExpandedAddresses(front);
      if IsRange(last) {
        var ends := Split(Strip(last), '-');
        forall i | 0 <= i < |Expand(last).value|
          ensures IsAddress(Expand(last).value[i])
        {
          AddressCharacters(ParseAddress(ends[0]).value + i);
        }
      }
    }
  }

  // An address run keeps the names it starts with in front, and adds only
  // generated ones.
  lemma {:induction false} AddressKeys(prefix: string, p: Progress, args: seq<string>, q: Progress)
    requires Fold(prefix, p, args) == Ok(q) && AllAddresses(args)
    ensures Keys(p.hosts) <= Keys(q.hosts)
    ensures forall k :: k in Keys(q.hosts) ==> k in Keys(p.hosts) || exists n: nat :: k == Generated(prefix, n)
  {
    hide Step, Fold, Generated, Put;
    if args == [] {
      HostTableChanges.FoldNone(prefix, p);
    } else {
      var init, arg := args[..|args| - 1], args[|args| - 1];
      var m := HostTableChanges.FoldLast(prefix, p, args, q);
      AddressKeys(prefix, p, init, m);
      var c := HostTableChanges.StepChange(prefix, m, arg, q);
    }
  }

  // No role is named like a host of the table such a run leaves.
  lemma NoRoleInTable(prefix: string, hosts: Table, args: seq<string>, table: Table)
    requires AllNumbered(hosts) && AllAddresses(args) && Build(prefix, hosts, args) == Ok(table)
    ensures Keys(hosts) <= Keys(table) && forall k :: k in Keys(table) ==> k !in ROLES
  {
    hide HostId, Fold, Generated, Copied, HighestId;
    CopyIsComplete(hosts);
    AddressKeys(prefix, Start(hosts), args, Fold(prefix, Start(hosts), args).value);
    forall k | k in Keys(table)
      ensures k !in ROLES
    {
      if k in Keys(hosts) {
        var i :| 0 <= i < |hosts| && Keys(hosts)[i] == k;
        RolesAreNotNumbered(k);
      } else {
        var n: nat :| k == Generated(prefix, n);
        GeneratedIsNoRole(prefix, n);
      }
    }
  }

  lemma GeneratedIsNoRole(prefix: string, n: nat)
    ensures Generated(prefix, n) !in ROLES
  {
    var name := Generated(prefix, n);
    assert name[|name| - 1] == Decimal(n)[|Decimal(n)| - 1];
    forall i | 0 <= i < |ROLES|
      ensures ROLES[i] != name
    {
      RoleHasNoDot(i);
    }
  }

  // The state that a run with addresses leaves.
  lemma AddressRun(cfg: Config, s: State, args: seq<string>, r: State, table: Table)
    requires WellFormed(s) && AllNumbered(s.hosts) && AllAddresses(args) && args != []
    requires ExpandAll(args).Ok? && Build(cfg.prefix, s.hosts, ExpandAll(args).value) == Ok(table)
    requires RunResult(cfg, s, args) == Ok(r)
    ensures AllAddresses(ExpandAll(args).value) && Unique(Keys(table)) && HasRoles(Prepared(s).groups)
    ensures r == AssignRoles(cfg, Prepared(s), table) && r.hosts == table && HasRoles(r.groups) && Prepared(r) == r
    ensures forall k :: k in Keys(table) ==> k !in ROLES
  {
    hide AssignRoles, ExpandAll, Build, WithGroups, HostId, KeepSet, Select, PutAll, IsAddress;
    PreparedHasRoles(s);
    ExpandedAddresses(args);
    NoRoleInTable(cfg.prefix, s.hosts, ExpandAll(args).value, table);
    BuildUnique(cfg.prefix, s.hosts, ExpandAll(args).value, table);
    assert Keys(s.hosts) == Keys(table)[..|s.hosts|];
    RetainAll(Keys(s.hosts), ToSet(Keys(table)));
    TableIsWritten(cfg, Prepared(s), table);
    AssignedShape(cfg, Prepared(s), table);
    RolesStay(r);
  }

  // A second run that leaves the same state has computed the same hosts.
  lemma SameStateSameHosts(cfg: Config, r: State, table: Table, table': Table)
    requires HasRoles(r.groups) && r.hosts == table && Unique(Keys(table)) && Unique(Keys(table'))
    requires forall k :: k in Keys(table) ==> k !in ROLES
    requires AssignRoles(cfg, r, table') == r
    ensures forall e :: e in table <==> e in table'
  {
    hide AssignRoles;
    HostsAreConsistent(cfg, r, table');
    forall e
      ensures e in table <==> e in table'
    {
      MemberIsLookup(table, e);
      MemberIsLookup(table', e);
    }
  }

  // From an inventory whose host names all have ids, with any prefix: a second
  // run with the same addresses and ranges gives the same state as the first one
  // exactly when the copy of the first one's hosts is complete and every address
  // belongs to one of them.
  lemma RunningTwiceExactly(cfg: Config, s: State, args: seq<string>, r: State, table: Table)
    requires WellFormed(s) && AllNumbered(s.hosts) && AllAddresses(args) && args != []
    requires ExpandAll(args).Ok? && Build(cfg.prefix, s.hosts, ExpandAll(args).value) == Ok(table)
    requires RunResult(cfg, s, args) == Ok(r)
    ensures RunResult(cfg, r, args) == Ok(r) <==> Copied(table) == table && AllAbsorbed(table, ExpandAll(args).value)
  {
    hide AssignRoles, ExpandAll, WithGroups, HostId, HighestId, Copied, Fold, AllAbsorbed, AllAddresses;
    var changed := ExpandAll(args).value;
    AddressRun(cfg, s, args, r, table);
    if RunResult(cfg, r, args) == Ok(r) {
      var table' := Build(cfg.prefix, table, changed).value;
      BuildUnique(cfg.prefix, table, changed, table');
      SameStateSameHosts(cfg, r, table, table');
      SameHostsOnlyIf(cfg.prefix, s.hosts, changed, table, table');
    }
    if Copied(table) == table && AllAbsorbed(table, changed) {
      AbsorbedFold(cfg.prefix, Start(table), changed);
      PreparedHasRoles(s);
      AssigningTwiceIsOnce(cfg, Prepared(s), table);
    }
  }

  // So with a prefix without a dot a second run changes nothing: not the hosts,
  // their options or their order, and not the groups, on either side of both
  // thresholds.
  lemma RunningTwiceIsOnce(cfg: Config, s: State, args: seq<string>, r: State)
    requires '.' !in cfg.prefix && WellFormed(s) && AllNumbered(s.hosts)
    requires AllAddresses(args) && RunResult(cfg, s, args) == Ok(r)
    ensures RunResult(cfg, r, args) == Ok(r)
  {
    hide AssignRoles, ExpandAll, Build, WithGroups, HostId, KeepSet, Copied, AllAbsorbed, IsAddress;
    PreparedHasRoles(s);
    if args == [] {
      GroupsAdded(s.groups, ROLES);
      PreparedTwice(r.groups, ROLES);
    } else {
      var table := Build(cfg.prefix, s.hosts, ExpandAll(args).value).value;
      ExpandedAddresses(args);
      RebuildChangesNothing(cfg.prefix, s.hosts, ExpandAll(args).value, table);
      RunningTwiceExactly(cfg, s, args, r, table);
    }
  }

  lemma PrefixIsStable(hosts: Table, table: Table)
    requires hosts <= table
    ensures StableOrder(Keys(hosts), Keys(table))
  {
    assert Keys(hosts) == Keys(table)[..|hosts|];
    RetainAll(Keys(hosts), ToSet(Keys(table)));
  }

  lemma RolesStay(s: State)
    requires HasRoles(s.groups)
    ensures Prepared(s) == s
  {
    assert |ROLES| == 6;
    PreparedTwice(s.groups, ROLES);
  }

  lemma BuildUnique(prefix: string, hosts: Table, args: seq<string>, t: Table)
    requires Unique(Keys(hosts)) && Build(prefix, hosts, args) == Ok(t)
    ensures Unique(Keys(t))
  {
    hide Fold;
    HostTableChanges.CopiedUnique(hosts);
    HostTableChanges.UniqueFold(prefix, Start(hosts), args);
  }

  // When the old hosts that are still there come first in the new table, the
  // host table after the run is exactly the new table.
  lemma TableIsWritten(cfg: Config, s: State, table: Table)
    requires HasRoles(s.groups) && Unique(Keys(table)) && AllNumbered(s.hosts)
    requires StableOrder(Keys(s.hosts), Keys(table))
    ensures AssignRoles(cfg, s, table).hosts == table
  {
    hide AssignRoles, HostId, Retain, Select, PutAll;
    AssignedShape(cfg, s, table);
    SelectKeys(s.hosts, KeepSet(table));
    forall k | k in Keys(s.hosts)
      ensures k in KeepSet(table) <==> k in ToSet(Keys(table))
    {
      var i :| 0 <= i < |s.hosts| && Keys(s.hosts)[i] == k;
      RolesAreNotNumbered(k);
    }
    RetainSame(Keys(s.hosts), KeepSet(table), ToSet(Keys(table)));
    PutAllOverPrefix(Select(s.hosts, KeepSet(table)), table);
  }

  // No role is named like a host with an id.
  lemma RolesAreNotNumbered(k: string)
    requires Numbered(k)
    ensures k !in ROLES
  {
    hide HostId;
    forall i | 0 <= i < |ROLES|
      ensures !Numbered(ROLES[i])
    {
      RoleHasNoDot(i);
      NotNumbered(ROLES[i]);
    }
  }

  lemma RoleHasNoDot(i: nat)
    requires i < |ROLES|
    ensures ROLES[i] != "" && IndexOf(ROLES[i], '.') == |ROLES[i]|
    ensures IsAlpha(ROLES[i][|ROLES[i]| - 1])
  {
    assert forall k :: 0 <= k < |ROLES[i]| ==> ROLES[i][k] != '.';
    IndexOfIs(ROLES[i], '.', |ROLES[i]|);
  }

  // ----- runs that fail

  // A run fails exactly if some argument asks for a range and is none, or the
  // table cannot be built; without arguments it only adds missing groups.
  lemma RunFailsExactly(cfg: Config, s: State, args: seq<string>)
    ensures RunResult(cfg, s, args).Err? <==>
              args != [] &&
              ((exists i :: 0 <= i < |args| && AsksForRange(args[i]) && !IsAddressRange(args[i])) ||
               (ExpandAll(args).Ok? && Build(cfg.prefix, s.hosts, ExpandAll(args).value).Err?))
    ensures args == [] ==> RunResult(cfg, s, args) == Ok(Prepared(s))
  {
    hide AssignRoles, ExpandAll, Build, WithGroups, AsksForRange, IsAddressRange;
    PreparedHasRoles(s);
    ListExpandedExactly(args);
  }

  // ----- the groups after a run, by name

  // The names a run protects are these six.
  lemma ProtectedNames(k: string)
    ensures k in ROLES <==>
              k == "all" || k == "etcd" || k == "kube_control_plane" || k == "kube_node" || k == "k8s_cluster" ||
              k == "calico_rr"
  {
    assert ROLES[0] == "all" && ROLES[1] == "kube_control_plane" && ROLES[2] == "kube_node";
    assert ROLES[3] == "etcd" && ROLES[4] == "k8s_cluster" && ROLES[5] == "calico_rr";
  }

  // Whatever the group k8s_cluster held before, a run with arguments leaves it
  // with these two children and nothing else.
  lemma ClusterAfterRun(cfg: Config, s: State, args: seq<string>, r: State)
    requires args != [] && RunResult(cfg, s, args) == Ok(r)
    ensures "k8s_cluster" in r.groups
    ensures r.groups["k8s_cluster"] == Group({"children"}, [], {"kube_control_plane", "kube_node"})
  {
    hide AssignRoles, ExpandAll, Build, WithGroups;
    PreparedHasRoles(s);
    AssignedShape(cfg, Prepared(s), Build(cfg.prefix, s.hosts, ExpandAll(args).value).value);
  }

  // The purge keeps exactly the kept names: in the host table with their options,
  // in every group but k8s_cluster, which it leaves alone.
  lemma PurgedExactly(s: State, keep: set<string>)
    ensures forall e :: e in Purged(s, keep).hosts <==> e in s.hosts && e.key in keep
    ensures Purged(s, keep).groups.Keys == s.groups.Keys
    ensures "k8s_cluster" in s.groups ==> Purged(s, keep).groups["k8s_cluster"] == s.groups["k8s_cluster"]
    ensures forall g, m :: g in s.groups && g != "k8s_cluster" ==>
              (m in Purged(s, keep).groups[g].hosts <==> m in s.groups[g].hosts && m in keep)
  {
    hide Select, Retain;
    forall e
      ensures e in Select(s.hosts, keep) <==> e in s.hosts && e.key in keep
    {
      InSelect(s.hosts, keep, e);
    }
    forall g, m | g in s.groups && g != "k8s_cluster"
      ensures m in Purged(s, keep).groups[g].hosts <==> m in s.groups[g].hosts && m in keep
    {
      RetainMembers(s.groups[g].hosts, keep);
    }
  }

  lemma {:induction false} InSelect(t: Table, keep: set<string>, e: Entry<Opts>)
    ensures e in Select(t, keep) <==> e in t && e.key in keep
  {
    if t != [] {
      var init, last := t[..|t| - 1], t[|t| - 1];
      InSelect(init, keep, e);
      assert t == init + [last];
    }
  }
}
