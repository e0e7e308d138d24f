/** The dynamic inventory's answers: `query_list` as an inverted index of host
    tuples, `query_host` as a linear search. */
module HostQuery {
  import opened OrderedDict
  import AttributeFlattening

  type Attributes = Dict<AttributeFlattening.Json>

  datatype Host = Host(name: string, attrs: Attributes, groups: seq<string>)

  // The `hosts` entry of each group, and the host variables under `_meta`.
  datatype Listing = Listing(groups: map<string, seq<string>>, hostvars: map<string, Attributes>)

  const META := "_meta"

  function Label(group: string): string {
    if group == "" then "all" else group
  }

  // A host is listed once for each of its group names with this label.
  function Copies(name: string, groups: set<string>, g: string): seq<string> {
    (if g != "" && g in groups then [name] else []) + (if g == "all" && "" in groups then [name] else [])
  }

  function Listed(hosts: seq<Host>, g: string): seq<string> {
    if hosts == [] then [] else
      var h := hosts[|hosts| - 1];
      Listed(hosts[..|hosts| - 1], g) + Copies(h.name, ToSet(h.groups), g)
  }

  function LastAttrs(hosts: seq<Host>): map<string, Attributes> {
    if hosts == [] then map[] else
      LastAttrs(hosts[..|hosts| - 1])[hosts[|hosts| - 1].name := hosts[|hosts| - 1].attrs]
  }

  function At(groups: map<string, seq<string>>, g: string): seq<string> {
    if g in groups then groups[g] else []
  }

  predicate NoneEmpty(groups: map<string, seq<string>>) {
    forall g :: g in groups ==> groups[g] != []
  }

  // set(hostgroups) is iterated in no particular order.
  method AddToGroups(groups: map<string, seq<string>>, name: string, names: set<string>)
    returns (r: map<string, seq<string>>)
    requires NoneEmpty(groups)
    ensures NoneEmpty(r) && forall g :: At(r, g) == At(groups, g) + Copies(name, names, g)
  {
    hide Copies, At;
    r := groups;
    var pending, done := names, {};
    NoCopies(groups, name);
    while pending != {}
      invariant done + pending == names && done !! pending && NoneEmpty(r)
      invariant forall g :: At(r, g) == At(groups, g) + Copies(name, done, g)
    {
      var group :| group in pending;
      var key := Label(group);
      var known := if key in r then r[key] else [];
      CopiesStep(name, done, group);
      AppendAt(r, key, name);
      ghost var before := r;
      r := r[key := known + [name]];
      forall g
        ensures At(r, g) == At(groups, g) + Copies(name, done + {group}, g)
      {
        var more := if g == key then [name] else [];
        assert At(groups, g) + Copies(name, done, g) + more == At(groups, g) + (Copies(name, done, g) + more);
      }
      pending, done := pending - {group}, done + {group};
    }
    assert done == names;
  }

  lemma NoCopies(groups: map<string, seq<string>>, name: string)
    ensures forall g :: At(groups, g) == At(groups, g) + Copies(name, {}, g)
  {
  }

  lemma AppendAt(groups: map<string, seq<string>>, key: string, name: string)
    ensures var known := if key in groups then groups[key] else [];
            forall g :: At(groups[key := known + [name]], g) == At(groups, g) + (if g == key then [name] else [])
  {
  }

  lemma CopiesStep(name: string, done: set<string>, group: string)
    requires group !in done
    ensures forall g ::
              Copies(name, done + {group}, g) == Copies(name, done, g) + (if g == Label(group) then [name] else [])
  {
    forall g
      ensures Copies(name, done + {group}, g) == Copies(name, done, g) + (if g == Label(group) then [name] else [])
    {
      assert g in done + {group} <==> g in done || g == group;
      assert "" in done + {group} <==> "" in done || "" == group;
    }
  }

  method QueryList(hosts: seq<Host>) returns (r: Listing)
    ensures "_meta" !in r.groups && r.hostvars == LastAttrs(hosts)
    ensures forall g :: g != "_meta" ==>
              At(r.groups, g) == Listed(hosts, g) && (g in r.groups <==> Listed(hosts, g) != [])
  {
    var groups: map<string, seq<string>> := map[];
    var meta: map<string, Attributes> := map[];
    for i := 0 to |hosts|
      invariant NoneEmpty(groups) && meta == LastAttrs(hosts[..i])
      invariant forall g :: At(groups, g) == Listed(hosts[..i], g)
    {
      assert hosts[..i + 1][..i] == hosts[..i];
      groups := AddToGroups(groups, hosts[i].name, ToSet(hosts[i].groups));
      meta := meta[hosts[i].name := hosts[i].attrs];
    }
    assert hosts[..|hosts|] == hosts;
    r := Listing(groups - {META}, meta);
    assert forall g :: g != META ==> At(r.groups, g) == At(groups, g);
  }

  // The first tuple for a name decides, and none gives empty variables.
  function FirstAttrs(hosts: seq<Host>, target: string): Attributes {
    if hosts == [] then []
    else if hosts[0].name == target then hosts[0].attrs
    else FirstAttrs(hosts[1..], target)
  }

  method QueryHost(hosts: seq<Host>, target: string) returns (r: Attributes)
    ensures r == FirstAttrs(hosts, target)
  {
    assert hosts[0..] == hosts;
    for i := 0 to |hosts|
      invariant FirstAttrs(hosts, target) == FirstAttrs(hosts[i..], target)
    {
      assert hosts[i..][0] == hosts[i] && hosts[i..][1..] == hosts[i + 1..];
      if hosts[i].name == target {
        return hosts[i].attrs;
      }
    }
    r := [];
  }

  predicate Carries(h: Host, g: string) {
    (g != "" && g in h.groups) || (g == "all" && "" in h.groups)
  }

  predicate SomeTupleCarries(hosts: seq<Host>, g: string, name: string) {
    exists i :: 0 <= i < |hosts| && hosts[i].name == name && Carries(hosts[i], g)
  }

  lemma CarriesSnoc(hosts: seq<Host>, h: Host, g: string, name: string)
    ensures SomeTupleCarries(hosts + [h], g, name) <==>
            SomeTupleCarries(hosts, g, name) || (h.name == name && Carries(h, g))
  {
    hide Carries;
    var all := hosts + [h];
    assert all[|hosts|] == h;
    if SomeTupleCarries(hosts, g, name) {
      var i :| 0 <= i < |hosts| && hosts[i].name == name && Carries(hosts[i], g);
      assert all[i] == hosts[i];
    }
  }

  // A host name is listed under a group exactly when some tuple for it carries
  // the group, an empty group name standing for `all`.
  lemma {:induction false} ListedExactly(hosts: seq<Host>, g: string, name: string)
    ensures name in Listed(hosts, g) <==> SomeTupleCarries(hosts, g, name)
  {
    if hosts != [] {
      var init, h := hosts[..|hosts| - 1], hosts[|hosts| - 1];
      ListedExactly(init, g, name);
      assert name in Copies(h.name, ToSet(h.groups), g) <==> h.name == name && Carries(h, g);
      hide Copies, Carries, SomeTupleCarries;
      CarriesSnoc(init, h, g, name);
      assert hosts == init + [h];
    }
  }

  predicate DistinctNames(hosts: seq<Host>) {
    forall i, j :: 0 <= i < j < |hosts| ==> hosts[i].name != hosts[j].name
  }

  // With distinct host names a host is listed at most once, except under `all`
  // when it carries both that name and the empty one.
  lemma {:induction false} ListedHowOften(hosts: seq<Host>, g: string, x: nat)
    requires DistinctNames(hosts) && x < |hosts|
    ensures multiset(Listed(hosts, g))[hosts[x].name] ==
            (if g != "" && g in hosts[x].groups then 1 else 0) + (if g == "all" && "" in hosts[x].groups then 1 else 0)
  {
    hide Copies, Carries;
    CopiesSize(hosts[x].name, hosts[x].groups, g);
    var init, h, name := hosts[..|hosts| - 1], hosts[|hosts| - 1], hosts[x].name;
    var front, back := Listed(init, g), Copies(h.name, ToSet(h.groups), g);
    assert Listed(hosts, g) == front + back && multiset(front + back) == multiset(front) + multiset(back);
    hide Listed;
    CopiesCount(h.name, ToSet(h.groups), g, name);
    if x < |init| {
      ListedHowOften(init, g, x);
    } else {
      ListedExactly(init, g, name);
      assert multiset(front)[name] == 0;
    }
  }

  lemma CopiesSize(name: string, groups: seq<string>, g: string)
    ensures |Copies(name, ToSet(groups), g)| ==
            (if g != "" && g in groups then 1 else 0) + (if g == "all" && "" in groups then 1 else 0)
  {
  }

  lemma CopiesCount(name: string, groups: set<string>, g: string, target: string)
    ensures multiset(Copies(name, groups, g))[target] == if target == name then |Copies(name, groups, g)| else 0
  {
  }

  lemma {:induction false} FirstAttrsIs(hosts: seq<Host>, x: nat)
    requires x < |hosts| && forall j :: 0 <= j < x ==> hosts[j].name != hosts[x].name
    ensures FirstAttrs(hosts, hosts[x].name) == hosts[x].attrs
  {
    if x > 0 {
      assert hosts[1..][x - 1] == hosts[x];
      FirstAttrsIs(hosts[1..], x - 1);
    }
  }

  lemma {:induction false} FirstAttrsNone(hosts: seq<Host>, target: string)
    requires forall j :: 0 <= j < |hosts| ==> hosts[j].name != target
    ensures FirstAttrs(hosts, target) == [] && target !in LastAttrs(hosts)
  {
    if hosts != [] {
      FirstAttrsNone(hosts[1..], target);
      LastAttrsNone(hosts, target);
    }
  }

  lemma {:induction false} LastAttrsNone(hosts: seq<Host>, target: string)
    requires forall j :: 0 <= j < |hosts| ==> hosts[j].name != target
    ensures target !in LastAttrs(hosts)
  {
    if hosts != [] {
      LastAttrsNone(hosts[..|hosts| - 1], target);
    }
  }

  lemma {:induction false} LastAttrsIs(hosts: seq<Host>, x: nat)
    requires x < |hosts| && forall j :: x < j < |hosts| ==> hosts[j].name != hosts[x].name
    ensures hosts[x].name in LastAttrs(hosts) && LastAttrs(hosts)[hosts[x].name] == hosts[x].attrs
  {
    if x < |hosts| - 1 {
      LastAttrsIs(hosts[..|hosts| - 1], x);
    }
  }

  // query_host returns the attributes of the first tuple for a name, query_list
  // stores those of the last one.
  lemma FirstAndLast(hosts: seq<Host>, first: nat, last: nat)
    requires first <= last < |hosts| && hosts[first].name == hosts[last].name
    requires forall j :: 0 <= j < first ==> hosts[j].name != hosts[first].name
    requires forall j :: last < j < |hosts| ==> hosts[j].name != hosts[last].name
    ensures FirstAttrs(hosts, hosts[first].name) == hosts[first].attrs
    ensures hosts[last].name in LastAttrs(hosts) && LastAttrs(hosts)[hosts[last].name] == hosts[last].attrs
  {
    FirstAttrsIs(hosts, first);
    LastAttrsIs(hosts, last);
  }

  // So with distinct host names the linear lookup and the index agree on every
  // name, and both know the same names.
  lemma LookupsAgree(hosts: seq<Host>, target: string)
    requires DistinctNames(hosts)
    ensures FirstAttrs(hosts, target) == if target in LastAttrs(hosts) then LastAttrs(hosts)[target] else []
    ensures target in LastAttrs(hosts) <==> exists i :: 0 <= i < |hosts| && hosts[i].name == target
  {
    if exists i :: 0 <= i < |hosts| && hosts[i].name == target {
      var i :| 0 <= i < |hosts| && hosts[i].name == target;
      FirstAndLast(hosts, i, i);
    } else {
      FirstAttrsNone(hosts, target);
    }
  }

  // ----- the order of a group's hosts

  lemma NoneListed(g: string)
    ensures Listed([], g) == []
  {
  }

  lemma ListedSnoc(hosts: seq<Host>, h: Host, g: string)
    ensures Listed(hosts + [h], g) == Listed(hosts, g) + Copies(h.name, ToSet(h.groups), g)
  {
    assert (hosts + [h])[..|hosts|] == hosts;
  }

  lemma {:induction false} ListedConcat(a: seq<Host>, b: seq<Host>, g: string)
    ensures Listed(a + b, g) == Listed(a, g) + Listed(b, g)
  {
    hide Copies, Listed;
    if b == [] {
      assert a + b == a;
      NoneListed(g);
    } else {
      var init, last := b[..|b| - 1], b[|b| - 1];
      ListedConcat(a, init, g);
      assert b == init + [last] && a + b == a + init + [last];
      ListedSnoc(a + init, last, g);
      ListedSnoc(init, last, g);
      assert Listed(a, g) + (Listed(init, g) + Copies(last.name, ToSet(last.groups), g)) ==
             Listed(a, g) + Listed(init, g) + Copies(last.name, ToSet(last.groups), g);
    }
  }

  // With distinct names a group lists its hosts in the order of their tuples.
  lemma ListedInOrder(hosts: seq<Host>, g: string, x: nat, y: nat, p: nat, q: nat)
    requires DistinctNames(hosts) && x < y < |hosts| && p < |Listed(hosts, g)| && q < |Listed(hosts, g)|
    requires Listed(hosts, g)[p] == hosts[x].name && Listed(hosts, g)[q] == hosts[y].name
    ensures p < q
  {
    hide Listed, Carries;
    var front, back := hosts[..y], hosts[y..];
    assert hosts == front + back;
    ListedConcat(front, back, g);
    NotListed(front, g, hosts[y].name);
    NotListed(back, g, hosts[x].name) by {
      assert forall i :: 0 <= i < |back| ==> back[i] == hosts[y + i];
    }
  }

  lemma NotListed(hosts: seq<Host>, g: string, name: string)
    requires forall i :: 0 <= i < |hosts| ==> hosts[i].name != name
    ensures forall k :: 0 <= k < |Listed(hosts, g)| ==> Listed(hosts, g)[k] != name
  {
    hide Listed, Carries;
    ListedExactly(hosts, g, name);
    assert forall k :: 0 <= k < |Listed(hosts, g)| ==> Listed(hosts, g)[k] in Listed(hosts, g);
  }
}
