/** How one run divides the hosts among empty role groups, by the number of
    hosts and the two size thresholds. */
module RoleLayout {
  import opened OrderedDict
  import opened HostTable
  import opened Inventory
  import opened RoleAssignment

  lemma {:induction false} UniqueSize(ks: seq<string>)
    requires Unique(ks)
    ensures |ToSet(ks)| == |ks|
  {
    if ks != [] {
      var init, last := ks[..|ks| - 1], ks[|ks| - 1];
      UniqueSize(init);
      assert ks == init + [last];
      assert ToSet(ks) == ToSet(init) + {last};
      assert last !in ToSet(init);
    }
  }

  lemma AddAllToNone(hs: seq<string>)
    requires Unique(hs)
    ensures AddAll([], hs) == hs
  {
    AddPrefixToPrefix(hs, 0, |hs|);
    assert hs[..0] == [] && hs[..|hs|] == hs;
  }

  // The first k of a sequence, or all of it.
  function FirstOf(s: seq<string>, k: nat): seq<string> {
    if k < |s| then s[..k] else s
  }

  // What the slices take: the first three hosts or the first one for etcd; the
  // next KUBE_CONTROL_HOSTS hosts, or the first ones in a small cluster, for the
  // control plane.
  lemma SlicesAre(cfg: Config, names: seq<string>)
    ensures EtcdHosts(names) == FirstOf(names, if |names| >= 3 then 3 else 1)
    ensures cfg.controlHosts >= 0 ==>
              ControlPlaneHosts(cfg, names) ==
              FirstOf(if |names| >= cfg.scale then names[|EtcdHosts(names)|..] else names, cfg.controlHosts)
  {
  }

  // With a negative number of control plane hosts the slice ends that many hosts
  // before the end of the list, counted from the end of etcd at scale.
  lemma NegativeSlices(cfg: Config, names: seq<string>)
    requires cfg.controlHosts < 0
    ensures var n := |names|;
            var etcd := if n >= 3 then 3 else 1;
            ControlPlaneHosts(cfg, names) ==
            if n < cfg.scale then (if -cfg.controlHosts < n then names[..n + cfg.controlHosts] else [])
            else if etcd + cfg.controlHosts < 0 && n + etcd + cfg.controlHosts > etcd
            then names[etcd..n + etcd + cfg.controlHosts]
            else []
  {
  }

  lemma SlicesAreUnique(cfg: Config, names: seq<string>)
    requires Unique(names)
    ensures Unique(EtcdHosts(names)) && Unique(ControlPlaneHosts(cfg, names))
    ensures forall h :: h in EtcdHosts(names) || h in ControlPlaneHosts(cfg, names) ==> h in names
  {
  }

  // Once the number of hosts reaches the threshold, the control plane starts
  // after the etcd hosts.
  lemma EtcdApartFromControlPlane(cfg: Config, names: seq<string>)
    requires Unique(names) && |names| >= cfg.scale
    ensures forall h :: h in EtcdHosts(names) ==> h !in ControlPlaneHosts(cfg, names)
  {
    var etcd, count := EtcdHosts(names), EtcdCount(|names|);
    var a, b := Clamp(count, |names|), Clamp(count + cfg.controlHosts, |names|);
    assert etcd == names[..Clamp(count, |names|)];
    assert forall i, j :: 0 <= i < a && a <= j < |names| ==> names[i] != names[j];
  }

  predicate Fresh(s: State) {
    HasRoles(s.groups) && forall g :: IsRoleGroup(g) && g in s.groups ==> s.groups[g] == EMPTY_GROUP
  }

  lemma FreshMembers(cfg: Config, s: State, table: Table, g: string)
    requires Fresh(s) && WellFormed(s) && Unique(Keys(table)) && IsRoleGroup(g) && g in s.groups
    ensures var r := AssignRoles(cfg, s, table);
            HasRoles(r.groups) && Members(r, g) == NewMembers(cfg, r, Keys(table), g)
  {
    hide AssignRoles, EtcdHosts, ControlPlaneHosts, KeepSet, AddAll;
    AssignedShape(cfg, s, table);
    var r, names := AssignRoles(cfg, s, table), Keys(table);
    SlicesAreUnique(cfg, names);
    RetainMembers(names, set h | h in names && IsWorker(cfg, r, h));
    RetainMembers(EtcdHosts(names), set h | h in EtcdHosts(names) && MayReflect(r.groups, h));
    AddAllToNone(NewMembers(cfg, r, names, g));
  }

  lemma HostCount(cfg: Config, s: State, table: Table)
    requires HasRoles(s.groups) && WellFormed(s) && Unique(Keys(table))
    requires forall k :: k in Keys(s.hosts) ==> k !in ROLES
    ensures |AssignRoles(cfg, s, table).hosts| == |table|
  {
    hide AssignRoles;
    HostTotalIs(cfg, s, table);
    UniqueSize(Keys(table));
    assert ToSet(Keys(s.hosts)) * ToSet(ROLES) == {};
    assert ToSet(Keys(table)) + {} == ToSet(Keys(table));
  }

  // The worker test, in terms of the groups the run leaves.
  lemma WorkersAre(cfg: Config, s: State, table: Table)
    requires Fresh(s) && WellFormed(s) && Unique(Keys(table))
    requires forall k :: k in Keys(s.hosts) ==> k !in ROLES
    ensures var r := AssignRoles(cfg, s, table);
            && Unique(Members(r, "kube_node"))
            && forall h :: h in Members(r, "kube_node") <==>
                 h in Keys(table) && !(|table| >= cfg.scale && h in Members(r, "etcd"))
                                  && !(|table| >= cfg.massive && h in Members(r, "kube_control_plane"))
  {
    hide AssignRoles, EtcdHosts, ControlPlaneHosts, Retain, KeepSet, Select, PutAll, AddAll;
    HostCount(cfg, s, table);
    AssignedShape(cfg, s, table);
    FreshMembers(cfg, s, table, "kube_node");
    var r, names := AssignRoles(cfg, s, table), Keys(table);
    RetainMembers(names, set h | h in names && IsWorker(cfg, r, h));
  }

  lemma PartsAddUp(whole: seq<string>, a: seq<string>, b: seq<string>, c: seq<string>)
    requires Unique(whole) && Unique(a) && Unique(b) && Unique(c)
    requires forall h :: h in whole <==> h in a || h in b || h in c
    requires forall h :: h in a ==> h !in b && h !in c
    requires forall h :: h in b ==> h !in c
    ensures |a| + |b| + |c| == |whole|
  {
    UniqueSize(whole);
    UniqueSize(a);
    UniqueSize(b);
    UniqueSize(c);
    assert ToSet(whole) == ToSet(a) + ToSet(b) + ToSet(c);
  }

  // The layout of a first run. Below the first threshold every host is a
  // worker; from it on, etcd hosts are neither control plane nor workers and
  // are the route reflectors; from the second one on, the three roles divide
  // the hosts among them.
  lemma LayoutFromEmpty(cfg: Config, s: State, table: Table)
    requires Fresh(s) && WellFormed(s) && Unique(Keys(table)) && cfg.massive >= cfg.scale
    requires forall k :: k in Keys(s.hosts) ==> k !in ROLES
    ensures var r, names, n := AssignRoles(cfg, s, table), Keys(table), |table|;
            var etcd, control := Members(r, "etcd"), Members(r, "kube_control_plane");
            var nodes, rr := Members(r, "kube_node"), Members(r, "calico_rr");
            && etcd == FirstOf(names, if n >= 3 then 3 else 1)
            && (cfg.controlHosts >= 0 ==>
                  control == FirstOf(if n >= cfg.scale then names[|etcd|..] else names, cfg.controlHosts))
            && (n < cfg.scale ==> ToSet(nodes) == ToSet(names) && rr == [])
            && (n >= cfg.scale ==>
                  && ToSet(etcd) !! ToSet(control) && ToSet(etcd) !! ToSet(nodes)
                  && ToSet(rr) == ToSet(etcd) - {"hosts"}
                  && ToSet(nodes) == ToSet(names) - ToSet(etcd) - (if n >= cfg.massive then ToSet(control) else {}))
            && (n >= cfg.massive ==>
                  && ToSet(control) !! ToSet(nodes)
                  && |etcd| + |control| + |nodes| == n)
  {
    hide AssignRoles, EtcdHosts, ControlPlaneHosts, Retain, KeepSet, Select, PutAll, AddAll, NewMembers, FirstOf;
    AssignedShape(cfg, s, table);
    var r, names := AssignRoles(cfg, s, table), Keys(table);
    EtcdAndControl(cfg, s, table);
    SlicesAre(cfg, names);
    Reflectors(cfg, s, table);
    WorkersAre(cfg, s, table);
    SlicesAreUnique(cfg, names);
    var etcd, control, nodes := Members(r, "etcd"), Members(r, "kube_control_plane"), Members(r, "kube_node");
    if |names| >= cfg.scale {
      EtcdApartFromControlPlane(cfg, names);
    }
    if |names| >= cfg.massive {
      PartsAddUp(names, etcd, control, nodes);
    }
  }

  lemma EtcdAndControl(cfg: Config, s: State, table: Table)
    requires Fresh(s) && WellFormed(s) && Unique(Keys(table))
    ensures var r := AssignRoles(cfg, s, table);
            && Members(r, "etcd") == EtcdHosts(Keys(table))
            && Members(r, "kube_control_plane") == ControlPlaneHosts(cfg, Keys(table))
  {
    hide AssignRoles, EtcdHosts, ControlPlaneHosts, Retain, KeepSet, Select, PutAll, AddAll;
    FreshMembers(cfg, s, table, "etcd");
    FreshMembers(cfg, s, table, "kube_control_plane");
  }

  lemma Reflectors(cfg: Config, s: State, table: Table)
    requires Fresh(s) && WellFormed(s) && Unique(Keys(table))
    ensures var r := AssignRoles(cfg, s, table);
            if |table| >= cfg.scale then ToSet(Members(r, "calico_rr")) == ToSet(EtcdHosts(Keys(table))) - {"hosts"}
            else Members(r, "calico_rr") == []
  {
    hide AssignRoles, EtcdHosts, ControlPlaneHosts, Retain, KeepSet, Select, PutAll, AddAll;
    AssignedShape(cfg, s, table);
    FreshMembers(cfg, s, table, "calico_rr");
    var r, etcd := AssignRoles(cfg, s, table), EtcdHosts(Keys(table));
    assert IsRoleGroup("kube_node") && IsRoleGroup("kube_control_plane");
    RetainMembers(etcd, set h | h in etcd && MayReflect(r.groups, h));
  }

  // ----- one run from any groups

  // A member of the group before the run that the purge leaves in it.
  predicate Stays(s: State, g: string, table: Table, h: string) {
    h in Members(s, g) && h in KeepSet(table)
  }

  lemma MembersAfter(cfg: Config, s: State, table: Table, g: string)
    requires HasRoles(s.groups) && IsRoleGroup(g) && g in s.groups
    ensures var r := AssignRoles(cfg, s, table);
            HasRoles(r.groups) &&
            forall h :: h in Members(r, g) <==> Stays(s, g, table, h) || h in NewMembers(cfg, r, Keys(table), g)
  {
    hide AssignRoles, NewMembers, Retain, AddAll, KeepSet;
    AssignedShape(cfg, s, table);
    var r, ms := AssignRoles(cfg, s, table), s.groups[g].hosts;
    RetainMembers(ms, KeepSet(table));
    AddAllMembers(Retain(ms, KeepSet(table)), NewMembers(cfg, r, Keys(table), g));
  }

  lemma {:induction false} SetSize(ks: seq<string>)
    ensures |ToSet(ks)| <= |ks|
  {
    if ks != [] {
      var init, last := ks[..|ks| - 1], ks[|ks| - 1];
      SetSize(init);
      assert ks == init + [last];
      assert ToSet(ks) == ToSet(init) + {last};
    }
  }

  lemma HostsAtLeast(cfg: Config, s: State, table: Table)
    requires HasRoles(s.groups) && Unique(Keys(table))
    ensures |AssignRoles(cfg, s, table).hosts| >= |table|
  {
    hide AssignRoles;
    HostsAreConsistent(cfg, s, table);
    var names, all := Keys(table), Keys(AssignRoles(cfg, s, table).hosts);
    UniqueSize(names);
    SetSize(all);
    assert ToSet(names) <= ToSet(all);
    assert |ToSet(all) - ToSet(names)| == |ToSet(all)| - |ToSet(names)|;
  }

  // The roles of a run at scale overlap exactly through the past: a host that
  // the purge leaves in one group and that is, or becomes, a member of another.
  lemma RolesApartExactly(cfg: Config, s: State, table: Table)
    requires HasRoles(s.groups) && Unique(Keys(table)) && |table| >= cfg.scale
    ensures var r, names := AssignRoles(cfg, s, table), Keys(table);
            var etcd, control, nodes := Members(r, "etcd"), Members(r, "kube_control_plane"), Members(r, "kube_node");
            && (ToSet(etcd) !! ToSet(nodes) <==>
                  forall h :: Stays(s, "kube_node", table, h) ==> h !in EtcdHosts(names) && !Stays(s, "etcd", table, h))
            && (ToSet(etcd) !! ToSet(control) <==>
                  && (forall h :: Stays(s, "kube_control_plane", table, h) ==>
                        h !in EtcdHosts(names) && !Stays(s, "etcd", table, h))
                  && (forall h :: Stays(s, "etcd", table, h) ==> h !in ControlPlaneHosts(cfg, names)))
            && (|table| >= cfg.massive ==>
                  (ToSet(control) !! ToSet(nodes) <==>
                     forall h :: Stays(s, "kube_node", table, h) ==>
                       h !in ControlPlaneHosts(cfg, names) && !Stays(s, "kube_control_plane", table, h)))
  {
    hide AssignRoles, EtcdHosts, ControlPlaneHosts, Stays, Retain, Keys;
    var r, names := AssignRoles(cfg, s, table), Keys(table);
    MembersAfter(cfg, s, table, "etcd");
    MembersAfter(cfg, s, table, "kube_control_plane");
    MembersAfter(cfg, s, table, "kube_node");
    EtcdApartFromControlPlane(cfg, names);
    HostsAtLeast(cfg, s, table);
    RetainMembers(names, set h | h in names && IsWorker(cfg, r, h));
    assert forall h :: h in ToSet(Members(r, "etcd")) <==> Stays(s, "etcd", table, h) || h in EtcdHosts(names);
    assert forall h :: h in ToSet(Members(r, "kube_control_plane")) <==>
             Stays(s, "kube_control_plane", table, h) || h in ControlPlaneHosts(cfg, names);
    assert forall h :: h in ToSet(Members(r, "kube_node")) ==>
             Stays(s, "kube_node", table, h) || IsWorker(cfg, r, h);
    assert forall h :: Stays(s, "kube_node", table, h) ==> h in ToSet(Members(r, "kube_node"));
  }

  // The number of hosts after the run: those computed, and earlier ones that are
  // named like a role.
  function HostTotal(s: State, table: Table): nat {
    |ToSet(Keys(table)) + ToSet(Keys(s.hosts)) * ToSet(ROLES)|
  }

  lemma HostTotalIs(cfg: Config, s: State, table: Table)
    requires HasRoles(s.groups) && Unique(Keys(s.hosts)) && Unique(Keys(table))
    ensures |AssignRoles(cfg, s, table).hosts| == HostTotal(s, table)
  {
    hide AssignRoles, KeepSet, Select, PutAll, Retain, AddAll;
    AssignedShape(cfg, s, table);
    HostsAreConsistent(cfg, s, table);
    var r, kept := AssignRoles(cfg, s, table), Select(s.hosts, KeepSet(table));
    SelectKeys(s.hosts, KeepSet(table));
    RetainMembers(Keys(s.hosts), KeepSet(table));
    PutAllKeys(kept, table);
    AddAllMembers(Keys(kept), Keys(table));
    UniqueSize(Keys(r.hosts));
    assert ToSet(Keys(r.hosts)) == ToSet(Keys(table)) + ToSet(Keys(s.hosts)) * ToSet(ROLES);
  }

  lemma HostTotalAtLeast(s: State, table: Table)
    requires Unique(Keys(table))
    ensures HostTotal(s, table) >= |table|
  {
    var names, all := ToSet(Keys(table)), ToSet(Keys(table)) + ToSet(Keys(s.hosts)) * ToSet(ROLES);
    UniqueSize(Keys(table));
    assert |all - names| == |all| - |names|;
  }

  // The run gives the host the role, told by the state before it.
  predicate Joins(cfg: Config, s: State, table: Table, g: string, h: string)
    requires HasRoles(s.groups)
  {
    var names, n := Keys(table), HostTotal(s, table);
    if g == "etcd" then h in EtcdHosts(names)
    else if g == "kube_control_plane" then h in ControlPlaneHosts(cfg, names)
    else if g == "kube_node" then
      && h in names
      && !(n >= cfg.scale && (h in EtcdHosts(names) || Stays(s, "etcd", table, h)))
      && !(n >= cfg.massive && (h in ControlPlaneHosts(cfg, names) || Stays(s, "kube_control_plane", table, h)))
    else
      && |names| >= cfg.scale && h in EtcdHosts(names)
      && h !in s.groups["kube_control_plane"].keys && h !in s.groups["kube_node"].keys
  }

  // The members of a role group after a run from any groups: those the purge
  // leaves and those the run gives the role.
  lemma MembersExactly(cfg: Config, s: State, table: Table, g: string)
    requires HasRoles(s.groups) && Unique(Keys(s.hosts)) && Unique(Keys(table)) && IsRoleGroup(g)
    ensures forall h :: h in Members(AssignRoles(cfg, s, table), g) <==>
                        Stays(s, g, table, h) || Joins(cfg, s, table, g, h)
  {
    hide AssignRoles, EtcdHosts, ControlPlaneHosts, Stays, Retain, HostTotal, Keys;
    var r, names := AssignRoles(cfg, s, table), Keys(table);
    MembersAfter(cfg, s, table, g);
    if g == "kube_node" {
      WorkersExactly(cfg, s, table);
    } else if g == "calico_rr" {
      SameReflecting(cfg, s, table);
      RetainMembers(EtcdHosts(names), set h | h in EtcdHosts(names) && MayReflect(r.groups, h));
    }
  }

  lemma WorkersExactly(cfg: Config, s: State, table: Table)
    requires HasRoles(s.groups) && Unique(Keys(s.hosts)) && Unique(Keys(table))
    ensures var r := AssignRoles(cfg, s, table);
            HasRoles(r.groups) &&
            forall h :: h in NewMembers(cfg, r, Keys(table), "kube_node") <==> Joins(cfg, s, table, "kube_node", h)
  {
    hide AssignRoles, EtcdHosts, ControlPlaneHosts, Stays, Retain, HostTotal, Keys;
    var r, names := AssignRoles(cfg, s, table), Keys(table);
    MembersAfter(cfg, s, table, "etcd");
    MembersAfter(cfg, s, table, "kube_control_plane");
    HostTotalIs(cfg, s, table);
    RetainMembers(names, set h | h in names && IsWorker(cfg, r, h));
    forall h
      ensures h in names && IsWorker(cfg, r, h) <==> Joins(cfg, s, table, "kube_node", h)
    {
      assert h in Members(r, "etcd") <==> Stays(s, "etcd", table, h) || h in EtcdHosts(names);
      assert h in Members(r, "kube_control_plane") <==>
             Stays(s, "kube_control_plane", table, h) || h in ControlPlaneHosts(cfg, names);
    }
  }

  lemma SameReflecting(cfg: Config, s: State, table: Table)
    requires HasRoles(s.groups)
    ensures var r := AssignRoles(cfg, s, table);
            HasRoles(r.groups) &&
            forall h :: MayReflect(r.groups, h) <==>
                        h !in s.groups["kube_control_plane"].keys && h !in s.groups["kube_node"].keys
  {
    hide AssignRoles, KeepSet, NewMembers, Retain, AddAll, Select, PutAll;
    AssignedShape(cfg, s, table);
    assert "kube_node" != CLUSTER && "kube_control_plane" != CLUSTER;
  }

  // The route reflectors are apart from the workers and from the control plane
  // exactly when those the purge leaves are, and no new one was a worker, or in
  // the control plane, before: the conflict tests only look at the keys of the
  // two groups, not at their members.
  lemma ReflectorsApartExactly(cfg: Config, s: State, table: Table)
    requires HasRoles(s.groups) && Unique(Keys(s.hosts)) && Unique(Keys(table))
    ensures var r := AssignRoles(cfg, s, table);
            var control, nodes := ToSet(Members(r, "kube_control_plane")), ToSet(Members(r, "kube_node"));
            var rr := ToSet(Members(r, "calico_rr"));
            && (rr !! nodes <==>
                  && (forall h :: Stays(s, "calico_rr", table, h) ==>
                        !Stays(s, "kube_node", table, h) && !Joins(cfg, s, table, "kube_node", h))
                  && (forall h :: Joins(cfg, s, table, "calico_rr", h) ==> !Stays(s, "kube_node", table, h)))
            && (rr !! control <==>
                  && (forall h :: Stays(s, "calico_rr", table, h) ==>
                        !Stays(s, "kube_control_plane", table, h) && !Joins(cfg, s, table, "kube_control_plane", h))
                  && (forall h :: Joins(cfg, s, table, "calico_rr", h) ==> !Stays(s, "kube_control_plane", table, h)))
  {
    hide AssignRoles, Stays, Joins, ToSet;
    MembersExactly(cfg, s, table, "kube_control_plane");
    MembersExactly(cfg, s, table, "kube_node");
    MembersExactly(cfg, s, table, "calico_rr");
    NewReflectorsApart(cfg, s, table);
    var r := AssignRoles(cfg, s, table);
    ApartExactly(Members(r, "calico_rr"), Members(r, "kube_node"));
    ApartExactly(Members(r, "calico_rr"), Members(r, "kube_control_plane"));
  }

  lemma ApartExactly(a: seq<string>, b: seq<string>)
    ensures ToSet(a) !! ToSet(b) <==> forall h :: h in a ==> h !in b
  {
    assert forall h :: (h in ToSet(a) <==> h in a) && (h in ToSet(b) <==> h in b);
    assert (exists h :: h in a && h in b) ==> exists h :: h in ToSet(a) && h in ToSet(b);
  }

  lemma NewReflectorsApart(cfg: Config, s: State, table: Table)
    requires HasRoles(s.groups) && Unique(Keys(table))
    ensures forall h :: Joins(cfg, s, table, "calico_rr", h) ==>
              !Joins(cfg, s, table, "kube_node", h) && !Joins(cfg, s, table, "kube_control_plane", h)
  {
    hide EtcdHosts, ControlPlaneHosts, Stays, HostTotal;
    HostTotalAtLeast(s, table);
    if |table| >= cfg.scale {
      EtcdApartFromControlPlane(cfg, Keys(table));
    }
  }
}
