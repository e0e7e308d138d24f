/** The inventory builder: its host table and role groups, the methods that
    change them in place, and one whole run. */
module Inventory {
  import opened Text
  import opened OrderedDict
  import AddressRanges
  import opened HostTable

  // The environment variables a run reads.
  datatype Config = Config(prefix: string, controlHosts: int, scale: int, massive: int)

  // A group's mapping: its keys, the members of its `hosts` entry in insertion
  // order, and the keys of its `children` entry.
  datatype Group = Group(keys: set<string>, hosts: seq<string>, children: set<string>)

  datatype State = State(hosts: Table, groups: map<string, Group>)

  const EMPTY_GROUP := Group({"hosts"}, [], {})
  const CLUSTER := "k8s_cluster"
  const CLUSTER_GROUP := Group({"children"}, [], {"kube_control_plane", "kube_node"})
  const ROLES: seq<string> := ["all", "kube_control_plane", "kube_node", "etcd", "k8s_cluster", "calico_rr"]

  // Every group but k8s_cluster has a `hosts` entry, and dictionaries have no
  // key twice.
  predicate WellFormed(s: State) {
    Unique(Keys(s.hosts)) &&
    forall g :: g in s.groups && g != CLUSTER ==> "hosts" in s.groups[g].keys && Unique(s.groups[g].hosts)
  }

  predicate HasRoles(groups: map<string, Group>) {
    && "kube_control_plane" in groups && "kube_node" in groups && "etcd" in groups
    && CLUSTER in groups && "calico_rr" in groups
  }

  // ----- what the methods compute

  function WithGroups(groups: map<string, Group>, names: seq<string>): map<string, Group> {
    if names == [] then groups else
      var rest := WithGroups(groups, names[..|names| - 1]);
      var g := names[|names| - 1];
      if g == "all" || g in rest then rest else rest[g := EMPTY_GROUP]
  }

  function Prepared(s: State): State {
    s.(groups := WithGroups(s.groups, ROLES))
  }

  function Purged(s: State, keep: set<string>): State {
    State(Select(s.hosts, keep),
          map g | g in s.groups ::
            if g == CLUSTER then s.groups[g] else s.groups[g].(hosts := Retain(s.groups[g].hosts, keep)))
  }

  function WithMembers(groups: map<string, Group>, g: string, hs: seq<string>): map<string, Group>
    requires g in groups
  {
    groups[g := groups[g].(hosts := AddAll(groups[g].hosts, hs))]
  }

  // Python's index normalisation and slicing.
  function Clamp(i: int, n: nat): (r: nat)
    ensures r <= n
  {
    if i < 0 then (if n + i < 0 then 0 else n + i) else if i > n then n else i
  }

  function Slice(s: seq<string>, lo: int, hi: int): seq<string> {
    var a, b := Clamp(lo, |s|), Clamp(hi, |s|);
    if a <= b then s[a..b] else []
  }

  function EtcdCount(n: nat): nat {
    if n >= 3 then 3 else 1
  }

  function EtcdHosts(names: seq<string>): seq<string> {
    Slice(names, 0, EtcdCount(|names|))
  }

  function ControlPlaneHosts(cfg: Config, names: seq<string>): seq<string> {
    var etcd := EtcdCount(|names|);
    if |names| >= cfg.scale then Slice(names, etcd, etcd + cfg.controlHosts) else Slice(names, 0, cfg.controlHosts)
  }

  predicate IsWorker(cfg: Config, s: State, h: string)
    requires HasRoles(s.groups)
  {
    !(|s.hosts| >= cfg.scale && h in s.groups["etcd"].hosts) &&
    !(|s.hosts| >= cfg.massive && h in s.groups["kube_control_plane"].hosts)
  }

  function WorkerHosts(cfg: Config, s: State, names: seq<string>): seq<string>
    requires HasRoles(s.groups)
  {
    Retain(names, set h | h in names && IsWorker(cfg, s, h))
  }

  // The conflict tests look a host up among the keys of the group's mapping.
  predicate MayReflect(groups: map<string, Group>, h: string)
    requires HasRoles(groups)
  {
    h !in groups["kube_control_plane"].keys && h !in groups["kube_node"].keys
  }

  function ReflectorHosts(groups: map<string, Group>, names: seq<string>): seq<string>
    requires HasRoles(groups)
  {
    Retain(names, set h | h in names && MayReflect(groups, h))
  }

  function KeepSet(table: Table): set<string> {
    ToSet(Keys(table)) + ToSet(ROLES)
  }

  // The state after the purge, the host table and the cluster group are written.
  function Rewritten(s: State, table: Table): State {
    var purged := Purged(s, KeepSet(table));
    State(PutAll(purged.hosts, table), purged.groups[CLUSTER := CLUSTER_GROUP])
  }

  function WithRole(s: State, g: string, hs: seq<string>): State
    requires g in s.groups
  {
    s.(groups := WithMembers(s.groups, g, hs))
  }

  function AssignRoles(cfg: Config, s: State, table: Table): State
    requires HasRoles(s.groups)
  {
    var names := Keys(table);
    var s1 := Rewritten(s, table);
    var s2 := WithRole(s1, "etcd", EtcdHosts(names));
    var s3 := WithRole(s2, "kube_control_plane", ControlPlaneHosts(cfg, names));
    var s4 := WithRole(s3, "kube_node", WorkerHosts(cfg, s3, names));
    if |names| >= cfg.scale then WithRole(s4, "calico_rr", ReflectorHosts(s4.groups, EtcdHosts(names))) else s4
  }

  lemma {:induction false} GroupsAdded(groups: map<string, Group>, names: seq<string>)
    ensures forall g :: g in groups ==> g in WithGroups(groups, names) && WithGroups(groups, names)[g] == groups[g]
    ensures forall i :: 0 <= i < |names| && names[i] != "all" ==> names[i] in WithGroups(groups, names)
    ensures forall g :: g in WithGroups(groups, names) && g !in groups ==> WithGroups(groups, names)[g] == EMPTY_GROUP
  {
    if names != [] {
      GroupsAdded(groups, names[..|names| - 1]);
    }
  }

  lemma PreparedHasRoles(s: State)
    ensures HasRoles(Prepared(s).groups)
    ensures WellFormed(s) ==> WellFormed(Prepared(s))
  {
    GroupsAdded(s.groups, ROLES);
    assert ROLES[1] == "kube_control_plane" && ROLES[2] == "kube_node" && ROLES[3] == "etcd";
    assert ROLES[4] == CLUSTER && ROLES[5] == "calico_rr";
  }

  function RunResult(cfg: Config, s: State, args: seq<string>): Result<State, Error> {
    PreparedHasRoles(s);
    if args == [] then Ok(Prepared(s)) else
      match AddressRanges.ExpandAll(args)
      case Err(e) => Err(BadRange(e))
      case Ok(changed) =>
        match Build(cfg.prefix, s.hosts, changed)
        case Err(e) => Err(e)
        case Ok(table) => Ok(AssignRoles(cfg, Prepared(s), table))
  }

  class KubesprayInventory {
    var hosts: Table
    var groups: map<string, Group>

    ghost function Abs(): State
      reads this
    {
      State(hosts, groups)
    }

    // A fresh inventory, or one parsed from a previous hosts file.
    constructor (hosts: Table, groups: map<string, Group>)
      ensures Abs() == State(hosts, groups)
    {
      this.hosts, this.groups := hosts, groups;
    }

    method EnsureRequiredGroups(names: seq<string>)
      modifies this
      ensures Abs() == old(Abs()).(groups := WithGroups(old(groups), names))
    {
      for i := 0 to |names|
        invariant hosts == old(hosts) && groups == WithGroups(old(groups), names[..i])
      {
        assert names[..i + 1][..i] == names[..i];
        var group := names[i];
        if group != "all" && group !in groups {
          groups := groups[group := EMPTY_GROUP];
        }
      }
      assert names[..|names|] == names;
    }

    // Removes the members of one group that are not kept.
    method PurgeGroup(role: string, keep: set<string>)
      requires role in groups && Unique(groups[role].hosts)
      modifies this
      ensures hosts == old(hosts)
      ensures groups == old(groups)[role := old(groups)[role].(hosts := Retain(old(groups)[role].hosts, keep))]
    {
      hide Remove, Retain;
      var members := groups[role].hosts;
      PurgeEnds(members, keep);
      assert groups[role].(hosts := members) == groups[role];
      for i := 0 to |members|
        invariant hosts == old(hosts) && role in groups
        invariant groups == old(groups)[role := old(groups)[role].(hosts := Retain(members[..i], keep) + members[i..])]
      {
        var host := members[i];
        PurgeStep(members, i, keep);
        if host !in keep {
          groups := groups[role := groups[role].(hosts := Remove(groups[role].hosts, host))];
        }
      }
    }

    method PurgeHosts(keep: set<string>)
      modifies this
      ensures groups == old(groups) && hosts == Select(old(hosts), keep)
    {
      var entries := hosts;
      var left: Table := [];
      for i := 0 to |entries|
        invariant hosts == old(hosts) && groups == old(groups) && left == Select(entries[..i], keep)
      {
        assert entries[..i + 1][..i] == entries[..i];
        if entries[i].key in keep {
          left := left + [entries[i]];
        }
      }
      assert entries[..|entries|] == entries;
      hosts := left;
    }

    method PurgeInvalidHosts(keep: set<string>)
      requires WellFormed(Abs())
      modifies this
      ensures Abs() == Purged(old(Abs()), keep)
    {
      var pending := groups.Keys - {CLUSTER};
      while pending != {}
        invariant hosts == old(hosts) && groups.Keys == old(groups).Keys && pending <= groups.Keys - {CLUSTER}
        invariant forall g :: g in groups ==>
          groups[g] == if g in pending || g == CLUSTER then old(groups)[g]
                       else old(groups)[g].(hosts := Retain(old(groups)[g].hosts, keep))
      {
        var role :| role in pending;
        PurgeGroup(role, keep);
        pending := pending - {role};
      }
      PurgeHosts(keep);
      assert groups == Purged(old(Abs()), keep).groups;
    }

    method AddHostToGroup(group: string, host: string)
      requires group in groups
      modifies this
      ensures hosts == old(hosts) && group in groups
      ensures groups == WithMembers(old(groups), group, [host])
    {
      assert AddAll(groups[group].hosts, [host][..0]) == groups[group].hosts;
      if host !in groups[group].hosts {
        groups := groups[group := groups[group].(hosts := groups[group].hosts + [host])];
      } else {
        assert groups == groups[group := groups[group].(hosts := groups[group].hosts)];
      }
    }

    // add_host_to_group for the group `all`, which also stores the options.
    method AddHost(host: string, opts: Opts)
      modifies this
      ensures groups == old(groups) && hosts == Put(old(hosts), host, opts)
    {
      hosts := Put(hosts, host, opts);
    }

    method SetAll(table: Table)
      modifies this
      ensures Abs() == old(Abs()).(hosts := PutAll(old(hosts), table))
    {
      for i := 0 to |table|
        invariant groups == old(groups) && hosts == PutAll(old(hosts), table[..i])
      {
        assert table[..i + 1][..i] == table[..i];
        AddHost(table[i].key, table[i].value);
      }
      assert table[..|table|] == table;
    }

    method SetK8sCluster()
      modifies this
      ensures Abs() == old(Abs()).(groups := old(groups)[CLUSTER := CLUSTER_GROUP])
    {
      groups := groups[CLUSTER := CLUSTER_GROUP];
    }

    // set_etcd and set_kube_control_plane: every given host joins the group.
    method SetRole(group: string, names: seq<string>)
      requires group in groups
      modifies this
      ensures Abs() == WithRole(old(Abs()), group, names)
    {
      NoMembers(groups, group);
      for i := 0 to |names|
        invariant hosts == old(hosts) && group in groups && groups == WithMembers(old(groups), group, names[..i])
      {
        MembersSnoc(old(groups), group, names[..i], names[i]);
        assert names[..i + 1] == names[..i] + [names[i]];
        AddHostToGroup(group, names[i]);
      }
      assert names[..|names|] == names;
    }

    method SetKubeNode(cfg: Config, names: seq<string>)
      requires HasRoles(groups)
      modifies this
      ensures HasRoles(old(groups)) && Abs() == WithRole(old(Abs()), "kube_node", WorkerHosts(cfg, old(Abs()), names))
    {
      ghost var s := Abs();
      ghost var workers := set h | h in names && IsWorker(cfg, s, h);
      NoMembers(groups, "kube_node");
      for i := 0 to |names|
        invariant hosts == s.hosts && "kube_node" in groups
        invariant groups == WithMembers(s.groups, "kube_node", Retain(names[..i], workers))
      {
        assert names[..i + 1][..i] == names[..i];
        var host := names[i];
        assert groups["etcd"] == s.groups["etcd"] && groups["kube_control_plane"] == s.groups["kube_control_plane"];
        assert host in workers <==> IsWorker(cfg, s, host);
        assert Retain(names[..i + 1], workers) ==
               if host in workers then Retain(names[..i], workers) + [host] else Retain(names[..i], workers);
        if |hosts| >= cfg.scale && host in groups["etcd"].hosts {
        } else if |hosts| >= cfg.massive && host in groups["kube_control_plane"].hosts {
        } else {
          MembersSnoc(s.groups, "kube_node", Retain(names[..i], workers), host);
          AddHostToGroup("kube_node", host);
        }
      }
      assert names[..|names|] == names;
    }

    method SetCalicoRr(names: seq<string>)
      requires HasRoles(groups)
      modifies this
      ensures HasRoles(old(groups)) && Abs() == WithRole(old(Abs()), "calico_rr", ReflectorHosts(old(groups), names))
    {
      ghost var s := Abs();
      ghost var reflectors := set h | h in names && MayReflect(s.groups, h);
      NoMembers(groups, "calico_rr");
      for i := 0 to |names|
        invariant hosts == s.hosts && "calico_rr" in groups
        invariant groups == WithMembers(s.groups, "calico_rr", Retain(names[..i], reflectors))
      {
        assert names[..i + 1][..i] == names[..i];
        var host := names[i];
        assert groups["kube_node"] == s.groups["kube_node"];
        assert groups["kube_control_plane"] == s.groups["kube_control_plane"];
        assert host in reflectors <==> MayReflect(s.groups, host);
        assert Retain(names[..i + 1], reflectors) ==
               if host in reflectors then Retain(names[..i], reflectors) + [host] else Retain(names[..i], reflectors);
        if host in groups["kube_control_plane"].keys {
        } else if host in groups["kube_node"].keys {
        } else {
          MembersSnoc(s.groups, "calico_rr", Retain(names[..i], reflectors), host);
          AddHostToGroup("calico_rr", host);
        }
      }
      assert names[..|names|] == names;
    }

    // The part of the constructor that handles a list of changed hosts.
    method Run(cfg: Config, args: seq<string>) returns (r: Result<(), Error>)
      requires WellFormed(Abs())
      modifies this
      ensures match RunResult(cfg, old(Abs()), args)
              case Ok(s) => r == Ok(()) && Abs() == s
              case Err(e) => r == Err(e) && Abs() == Prepared(old(Abs()))
    {
      PreparedHasRoles(Abs());
      EnsureRequiredGroups(ROLES);
      if args == [] {
        return Ok(());
      }
      var changed := AddressRanges.RangesToAddresses(args);
      if changed.Err? {
        return Err(BadRange(changed.error));
      }
      var built := BuildHostnames(cfg.prefix, hosts, changed.value);
      if built.Err? {
        return Err(built.error);
      }
      AssignAll(cfg, built.value);
      r := Ok(());
    }

    method AssignAll(cfg: Config, table: Table)
      requires WellFormed(Abs()) && HasRoles(groups)
      modifies this
      ensures HasRoles(old(groups)) && Abs() == AssignRoles(cfg, old(Abs()), table)
    {
      var names := Keys(table);
      PurgeInvalidHosts(KeepSet(table));
      SetAll(table);
      SetK8sCluster();
      assert Abs() == Rewritten(old(Abs()), table);
      SetRole("etcd", EtcdHosts(names));
      SetRole("kube_control_plane", ControlPlaneHosts(cfg, names));
      SetKubeNode(cfg, names);
      if |names| >= cfg.scale {
        SetCalicoRr(EtcdHosts(names));
      }
    }
  }

  lemma PurgeStep(members: seq<string>, i: nat, keep: set<string>)
    requires Unique(members) && i < |members|
    ensures var current := Retain(members[..i], keep) + members[i..];
            (if members[i] in keep then current else Remove(current, members[i])) ==
            Retain(members[..i + 1], keep) + members[i + 1..]
  {
    assert members[..i + 1][..i] == members[..i];
    var front, back := Retain(members[..i], keep), members[i + 1..];
    RetainMembers(members[..i], keep);
    assert front + members[i..] == front + [members[i]] + back;
    RemoveBetween(front, members[i], back);
  }

  lemma PurgeEnds(members: seq<string>, keep: set<string>)
    ensures Retain(members[..0], keep) + members[0..] == members
    ensures Retain(members[..|members|], keep) + members[|members|..] == Retain(members, keep)
  {
    assert members[..|members|] == members && members[|members|..] == [];
  }

  lemma NoMembers(groups: map<string, Group>, g: string)
    requires g in groups
    ensures WithMembers(groups, g, []) == groups
  {
  }

  lemma MembersSnoc(groups: map<string, Group>, g: string, hs: seq<string>, h: string)
    requires g in groups
    ensures WithMembers(groups, g, hs + [h]) == WithMembers(WithMembers(groups, g, hs), g, [h])
  {
    assert (hs + [h])[..|hs|] == hs;
    var ms := AddAll(groups[g].hosts, hs);
    assert [h][..0] == [] && AddAll(ms, [h]) == Add(ms, h);
  }
}
