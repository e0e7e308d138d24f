/** Which hosts survive address and deletion arguments, and which added hosts are
    in the resulting table. */
module HostSurvival {
  import opened Text
  import opened OrderedDict
  import opened HostNames
  import opened HostTable
  import opened HostTableChanges

  predicate TargetedByName(e: Entry<Opts>, arg: string) {
    IsDeletion(arg) && arg[1..] == e.key
  }

  predicate TargetedByIp(e: Entry<Opts>, arg: string) {
    IsDeletion(arg) && GetIp(e.value) == Ok(arg[1..])
  }

  predicate Targeted(e: Entry<Opts>, arg: string) {
    TargetedByName(e, arg) || TargetedByIp(e, arg)
  }

  predicate Untargeted(e: Entry<Opts>, args: seq<string>) {
    forall i :: 0 <= i < |args| ==> !Targeted(e, args[i])
  }

  // The ip, if the host has one, is neither a host's name nor one that can be
  // generated.
  ghost predicate IpIsNoName(prefix: string, t: Table, e: Entry<Opts>) {
    "ip" in e.value ==> e.value["ip"] !in Keys(t) && forall n: nat :: e.value["ip"] != Generated(prefix, n)
  }

  // Moreover no other host has it.
  ghost predicate FoundByIp(prefix: string, t: Table, e: Entry<Opts>) {
    IpIsNoName(prefix, t, e) &&
    ("ip" in e.value ==> forall x :: x in t && GetIp(x.value) == GetIp(e.value) ==> x == e)
  }

  // A deletion argument removes a host exactly when it is its name, or when it
  // is no name and the host is the first one with that ip.
  lemma TargetedIsDeleted(prefix: string, p: Progress, arg: string, name: string)
    requires IsDeletion(arg) && name in Keys(p.hosts)
    ensures Deletes(p.hosts, arg[1..], name) <==>
            Step(prefix, p, arg).Ok? && Step(prefix, p, arg).value.hosts == Delete(p.hosts, name)
  {
    hide FindIp, Delete;
    FindIpIs(p.hosts, arg[1..]);
    DeleteKeys(p.hosts, name);
    if arg[1..] in Keys(p.hosts) {
      DeleteKeys(p.hosts, arg[1..]);
    } else if Step(prefix, p, arg).Ok? && FindIp(p.hosts, arg[1..]).value.Some? {
      var i := FindIp(p.hosts, arg[1..]).value.value;
      assert Keys(p.hosts)[i] == p.hosts[i].key;
      DeleteKeys(p.hosts, p.hosts[i].key);
    }
  }

  // What one address or deletion argument does to one host whose name it does
  // not generate.
  lemma HostAfterStep(prefix: string, m: Progress, arg: string, q: Progress, e: Entry<Opts>)
    requires Step(prefix, m, arg) == Ok(q) && !NamesHost(arg) && Unique(Keys(m.hosts))
    requires e in m.hosts && !GeneratedFrom(prefix, m.nextId, q.nextId, e.key)
    ensures e.key in Keys(q.hosts) ==> e in q.hosts
    ensures !Targeted(e, arg) ==> e in q.hosts
    ensures TargetedByName(e, arg) ==> e !in q.hosts
    ensures FoundByIp(prefix, m.hosts, e) && Targeted(e, arg) ==> e !in q.hosts
    ensures FoundByIp(prefix, m.hosts, e) && e in q.hosts ==> FoundByIp(prefix, q.hosts, e)
  {
    hide Step, Generated, FoundByIp, Targeted, TargetedByName, AddsHost, Put, Delete;
    KeyOfMember(m.hosts, e);
    var c := StepChange(prefix, m, arg, q);
    match c
    case Same => SameTargetsNone(m.hosts, arg, e);
    case Removed(name) =>
      DeleteMembers(m.hosts, name);
      DeleteKeys(m.hosts, name);
      RemovedIsTargeted(prefix, m.hosts, arg, name, e);
      if FoundByIp(prefix, m.hosts, e) {
        FoundAfterDelete(prefix, m.hosts, name, e);
      }
    case Allocated =>
      PutMembers(m.hosts, Generated(prefix, m.nextId), AddressOpts(arg));
      AddressTargetsNone(arg, e);
      NewIpOfAdded(m.hosts, arg);
      if FoundByIp(prefix, m.hosts, e) {
        FoundAfterPut(prefix, m.hosts, m.nextId, AddressOpts(arg), e);
      }
    case Assigned(_, _) => assert false;
  }

  lemma AddressTargetsNone(arg: string, e: Entry<Opts>)
    requires !IsDeletion(arg)
    ensures !Targeted(e, arg) && !TargetedByName(e, arg)
  {
  }

  lemma FoundAfterDelete(prefix: string, t: Table, name: string, e: Entry<Opts>)
    requires FoundByIp(prefix, t, e)
    ensures FoundByIp(prefix, Delete(t, name), e)
  {
    hide Generated, Delete;
    DeleteMembers(t, name);
    DeleteKeys(t, name);
  }

  lemma FoundAfterPut(prefix: string, t: Table, n: nat, opts: Opts, e: Entry<Opts>)
    requires FoundByIp(prefix, t, e) && NewIp(t, opts) && e in t && Unique(Keys(t))
    ensures FoundByIp(prefix, Put(t, Generated(prefix, n), opts), e)
  {
    hide Generated, Put, IpAbsent;
    var name := Generated(prefix, n);
    PutMembers(t, name, opts);
    NewIpIsNoMember(t, opts);
    if "ip" in e.value {
      var ip := e.value["ip"];
      assert ip !in Keys(Put(t, name, opts));
      forall x | x in Put(t, name, opts) && GetIp(x.value) == GetIp(e.value)
        ensures x == e
      {
        assert x == Entry(name, opts) || x in t;
      }
    }
  }

  lemma SameTargetsNone(t: Table, arg: string, e: Entry<Opts>)
    requires IsDeletion(arg) ==> arg[1..] !in Keys(t) && IpAbsent(t, arg[1..])
    requires e in t
    ensures !Targeted(e, arg) && !TargetedByName(e, arg)
  {
    KeyOfMember(t, e);
  }

  lemma RemovedIsTargeted(prefix: string, t: Table, arg: string, name: string, e: Entry<Opts>)
    requires IsDeletion(arg) && Deletes(t, arg[1..], name) && Unique(Keys(t)) && e in t
    ensures name == e.key ==> Targeted(e, arg)
    ensures TargetedByName(e, arg) ==> name == e.key
    ensures FoundByIp(prefix, t, e) && Targeted(e, arg) ==> name == e.key
  {
    hide Generated;
    KeyOfMember(t, e);
    if arg[1..] !in Keys(t) {
      var i :| 0 <= i < |t| && FirstWithIp(t, arg[1..], i) && t[i].key == name;
      assert t[i] in t;
    }
  }

  // A host that is gone stays gone unless its name is generated.
  lemma GoneStaysGone(prefix: string, m: Progress, arg: string, q: Progress, k: string)
    requires Step(prefix, m, arg) == Ok(q) && !NamesHost(arg)
    requires k !in Keys(m.hosts) && !GeneratedFrom(prefix, m.nextId, q.nextId, k)
    ensures k !in Keys(q.hosts)
  {
    hide Step, Generated;
    var c := StepChange(prefix, m, arg, q);
    if c.Removed? {
      DeleteKeys(m.hosts, c.name);
    }
  }

  // Over address and deletion arguments, a host whose name is not generated keeps
  // its options while it is there; it stays if no argument targets it, goes if one
  // names it, and goes if one is its ip, provided the ip finds it.
  lemma {:induction false} SurvivesExactly(prefix: string, p: Progress, args: seq<string>, q: Progress, e: Entry<Opts>)
    requires Fold(prefix, p, args) == Ok(q) && NamesNone(args) && Unique(Keys(p.hosts))
    requires e in p.hosts && !GeneratedFrom(prefix, p.nextId, q.nextId, e.key)
    ensures e.key in Keys(q.hosts) <==> e in q.hosts
    ensures Untargeted(e, args) ==> e in q.hosts
    ensures e in q.hosts ==> forall i :: 0 <= i < |args| ==> !TargetedByName(e, args[i])
    ensures FoundByIp(prefix, p.hosts, e) && e in q.hosts ==> Untargeted(e, args) && FoundByIp(prefix, q.hosts, e)
  {
    hide Step, Fold, FoundByIp, TargetedByIp, TargetedByName, GeneratedFrom;
    if args == [] {
      FoldNone(prefix, p);
      KeyOfMember(p.hosts, e);
    } else {
      var init, arg := args[..|args| - 1], args[|args| - 1];
      assert init + [arg] == args;
      var m := FoldLast(prefix, p, args, q);
      IdsGrow(prefix, p, init, m);
      LastNames(prefix, p, args, m, q, "");
      GeneratedUpTo(prefix, p.nextId, m.nextId, q.nextId, e.key);
      SurvivesExactly(prefix, p, init, m, e);
      if e in m.hosts {
        UniqueFold(prefix, p, init);
        HostAfterStep(prefix, m, arg, q, e);
      } else {
        GoneStaysGone(prefix, m, arg, q, e.key);
      }
      if e in q.hosts {
        KeyOfMember(q.hosts, e);
      }
    }
  }

  // A host that no argument targets is lost for good when its name is generated.
  lemma {:induction false} OverwrittenIsLost(prefix: string, p: Progress, args: seq<string>, q: Progress,
                                             e: Entry<Opts>)
    requires Fold(prefix, p, args) == Ok(q) && NamesNone(args) && Unique(Keys(p.hosts))
    requires e in p.hosts && Untargeted(e, args) && GeneratedFrom(prefix, p.nextId, q.nextId, e.key)
    ensures e !in q.hosts
  {
    hide Step, Fold, Targeted, Generated, AddsHost, Put, Delete;
    if args == [] {
      FoldNone(prefix, p);
    } else {
      var init, arg := args[..|args| - 1], args[|args| - 1];
      assert init + [arg] == args;
      var m := FoldLast(prefix, p, args, q);
      IdsGrow(prefix, p, init, m);
      LastNames(prefix, p, args, m, q, "");
      UniqueFold(prefix, p, init);
      if GeneratedFrom(prefix, p.nextId, m.nextId, e.key) {
        OverwrittenIsLost(prefix, p, init, m, e);
        var n: nat :| p.nextId <= n < m.nextId && e.key == Generated(prefix, n);
        NotWrittenBack(prefix, m, arg, q, e, n);
      } else {
        GeneratedUpTo(prefix, p.nextId, m.nextId, q.nextId, e.key);
        SurvivesExactly(prefix, p, init, m, e);
        OverwrittenNow(prefix, m, arg, q, e);
      }
    }
  }

  lemma NotWrittenBack(prefix: string, m: Progress, arg: string, q: Progress, e: Entry<Opts>, n: nat)
    requires Step(prefix, m, arg) == Ok(q) && !NamesHost(arg) && Unique(Keys(m.hosts))
    requires e !in m.hosts && n < m.nextId && e.key == Generated(prefix, n)
    ensures e !in q.hosts
  {
    hide Step, Generated, Put, Delete;
    var c := StepChange(prefix, m, arg, q);
    if c.Removed? {
      DeleteMembers(m.hosts, c.name);
    } else if c.Allocated? {
      PutMembers(m.hosts, Generated(prefix, m.nextId), AddressOpts(arg));
      if Generated(prefix, n) == Generated(prefix, m.nextId) {
        GeneratedInjective(prefix, n, m.nextId);
      }
    }
  }

  lemma OverwrittenNow(prefix: string, m: Progress, arg: string, q: Progress, e: Entry<Opts>)
    requires Step(prefix, m, arg) == Ok(q) && Unique(Keys(m.hosts))
    requires e in m.hosts && GeneratedFrom(prefix, m.nextId, q.nextId, e.key)
    ensures e !in q.hosts
  {
    hide Step, Generated, Put;
    var c := StepChange(prefix, m, arg, q);
    PutMembers(m.hosts, Generated(prefix, m.nextId), AddressOpts(arg));
    NewIpOfAdded(m.hosts, arg);
  }

  // The fate of a host that was there before the run. If no argument targets it,
  // it keeps its entry exactly unless its name is generated, which takes a dot in
  // the prefix. If its name is not generated and its ip finds it, it goes away
  // exactly when some argument is its name or its ip with a leading dash.
  lemma DeletedExactly(prefix: string, hosts: Table, args: seq<string>, q: Progress, e: Entry<Opts>)
    requires Fold(prefix, Start(hosts), args) == Ok(q) && NamesNone(args) && Unique(Keys(hosts))
    requires e in Copied(hosts)
    ensures var generated := GeneratedFrom(prefix, Start(hosts).nextId, q.nextId, e.key);
            && (Untargeted(e, args) ==> (e in q.hosts <==> !generated))
            && (!generated && FoundByIp(prefix, Copied(hosts), e) ==> (e.key in Keys(q.hosts) <==> Untargeted(e, args)))
            && ('.' !in prefix ==> !generated)
  {
    hide Step, Fold, HighestId, Copied, FoundByIp, Targeted, Generated;
    var p := Start(hosts);
    CopiedUnique(hosts);
    if GeneratedFrom(prefix, p.nextId, q.nextId, e.key) {
      KeyOfMember(p.hosts, e);
      if '.' !in prefix {
        DotFreeNeverClashes(prefix, hosts, q.nextId);
      }
      if Untargeted(e, args) {
        OverwrittenIsLost(prefix, p, args, q, e);
      }
    } else {
      SurvivesExactly(prefix, p, args, q, e);
    }
  }

  // An address that is not in the table when its argument is reached gives a
  // host that is in the resulting table exactly when no later argument is its
  // name or its ip with a leading dash, with any prefix.
  lemma AddedExactly(prefix: string, p: Progress, before: seq<string>, m: Progress, arg: string, after: seq<string>,
                     q: Progress)
    requires NamesNone(before) && NamesNone(after) && Unique(Keys(p.hosts))
    requires Fold(prefix, p, before) == Ok(m) && Fold(prefix, p, before + [arg] + after) == Ok(q)
    requires AddsHost(m.hosts, arg)
    ensures var e := Entry(Generated(prefix, m.nextId), AddressOpts(arg));
            && (Untargeted(e, after) ==> e in q.hosts)
            && (IpIsNoName(prefix, p.hosts, e) ==> (e in q.hosts <==> Untargeted(e, after)))
  {
    hide Step, Fold, Generated, AddressOpts, AddsHost, IpIsNoName, FoundByIp, Targeted, Put;
    var e := Entry(Generated(prefix, m.nextId), AddressOpts(arg));
    FoldConcat(prefix, p, before + [arg], after);
    FoldConcat(prefix, p, before, [arg]);
    FoldOfOne(prefix, m, arg);
    var r := Step(prefix, m, arg).value;
    var c := StepChange(prefix, m, arg, r);
    UniqueFold(prefix, p, before);
    UniqueFold(prefix, p, before + [arg]);
    PutMembers(m.hosts, e.key, e.value);
    if IpIsNoName(prefix, p.hosts, e) {
      AddedIsFound(prefix, p, before, m, arg, r);
    }
    assert !GeneratedFrom(prefix, r.nextId, q.nextId, e.key) by { NotAgain(prefix, m.nextId, r.nextId, q.nextId); }
    SurvivesExactly(prefix, r, after, q, e);
  }

  lemma NotAgain(prefix: string, n: nat, lo: nat, hi: nat)
    requires n < lo
    ensures !GeneratedFrom(prefix, lo, hi, Generated(prefix, n))
  {
    hide Generated;
    forall m: nat | lo <= m < hi
      ensures Generated(prefix, m) != Generated(prefix, n)
    {
      if Generated(prefix, m) == Generated(prefix, n) {
        GeneratedInjective(prefix, m, n);
      }
    }
  }

  // A host just added is found by its ip unless the ip is a name.
  lemma AddedIsFound(prefix: string, p: Progress, args: seq<string>, m: Progress, arg: string, r: Progress)
    requires Fold(prefix, p, args) == Ok(m) && NamesNone(args) && Unique(Keys(m.hosts))
    requires AddsHost(m.hosts, arg) && Step(prefix, m, arg) == Ok(r)
    requires IpIsNoName(prefix, p.hosts, Entry(Generated(prefix, m.nextId), AddressOpts(arg)))
    ensures FoundByIp(prefix, r.hosts, Entry(Generated(prefix, m.nextId), AddressOpts(arg)))
  {
    hide Step, Fold, Generated, Takes, Put, AddressOpts;
    var name, opts := Generated(prefix, m.nextId), AddressOpts(arg);
    var ip := opts["ip"];
    var c := StepChange(prefix, m, arg, r);
    NoneTakes(prefix, p, args);
    PresentNames(prefix, p, args, m, ip);
    CurrentIsPresent(prefix, p, args, m);
    PutMembers(m.hosts, name, opts);
    NewIpIsNoMember(m.hosts, opts);
  }
}
