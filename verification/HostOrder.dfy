/** How a run rearranges the host table: who stays, in what order, and who is
    added. */
module HostOrder {
  import opened Text
  import opened OrderedDict
  import opened HostNames
  import opened HostTable
  import opened HostTableChanges

  // ----- ids of all hosts

  predicate AllNumbered(t: Table) {
    forall i :: 0 <= i < |t| ==> Numbered(t[i].key)
  }

  lemma {:induction false} CopyEndMeans(hosts: Table, i: nat)
    requires i <= |hosts|
    ensures CopyEnd(hosts, i) == |hosts| <==> forall j :: i <= j < |hosts| - 1 ==> Numbered(hosts[j].key)
    decreases |hosts| - i
  {
    hide HostId;
    if i < |hosts| {
      CopyEndMeans(hosts, i + 1);
    }
  }

  // The copy loop loses hosts exactly when one without an id is not the last.
  lemma CopyIsComplete(hosts: Table)
    ensures Copied(hosts) == hosts <==> forall j :: 0 <= j < |hosts| - 1 ==> Numbered(hosts[j].key)
  {
    CopyEndMeans(hosts, 0);
    if Copied(hosts) == hosts {
      assert |Copied(hosts)| == |hosts|;
    }
  }

  lemma {:induction false} NumberedFold(prefix: string, p: Progress, args: seq<string>, q: Progress)
    requires '.' !in prefix || Numbered(prefix)
    requires p.name.None? && Fold(prefix, p, args) == Ok(q) && AllNumbered(p.hosts)
    requires forall k :: k in NamesGiven(args) ==> Numbered(k)
    ensures AllNumbered(q.hosts)
  {
    hide Step, HostId, NamesGiven;
    if args != [] {
      var init, arg := args[..|args| - 1], args[|args| - 1];
      var m := Fold(prefix, p, init).value;
      NamesGivenGrow(args, |args| - 1);
      NumberedFold(prefix, p, init, m);
      var c := StepChange(prefix, m, arg, q);
      match c
      case Same =>
      case Removed(name) =>
        DeleteKeys(m.hosts, name);
        forall i | 0 <= i < |q.hosts|
          ensures Numbered(q.hosts[i].key)
        {
          assert Keys(q.hosts)[i] in Keys(m.hosts);
        }
      case Allocated =>
        GeneratedIsNumbered(prefix, m.nextId);
      case Assigned(name, opts) =>
        LeftoverName(prefix, p, args, q);
    }
  }

  // ----- the order of the surviving hosts

  // The old names that are still there come first, in their old order.
  predicate StableOrder(before: seq<string>, after: seq<string>) {
    Retain(before, ToSet(after)) <= after
  }

  // No argument brings back a host of the initial table deleted before it.
  predicate NeverReadds(prefix: string, p: Progress, args: seq<string>) {
    args == [] ||
    (NeverReadds(prefix, p, args[..|args| - 1]) &&
     match (Fold(prefix, p, args[..|args| - 1]), Fold(prefix, p, args))
     case (Ok(q), Ok(r)) => forall k :: k in Keys(p.hosts) && k in Keys(r.hosts) ==> k in Keys(q.hosts)
     case _ => true)
  }

  lemma StableAppend(before: seq<string>, cur: seq<string>, k: string)
    requires StableOrder(before, cur) && k !in before
    ensures StableOrder(before, cur + [k])
  {
    RetainSame(before, ToSet(cur), ToSet(cur + [k]));
  }

  lemma StableDelete(before: seq<string>, cur: Table, k: string)
    requires StableOrder(before, Keys(cur))
    ensures StableOrder(before, Keys(Delete(cur, k)))
  {
    var ks, keep := Keys(cur), ToSet(Keys(cur)) - {k};
    assert forall i :: 0 <= i < |cur| ==> Keys(cur)[i] == cur[i].key;
    DeleteIsSelect(cur, k, keep);
    SelectKeys(cur, keep);
    var kept := Retain(before, ToSet(ks));
    assert kept == ks[..|kept|];
    RetainPrefix(ks, |kept|, keep);
    RetainTwice(before, ToSet(ks), keep);
    RetainMembers(ks, keep);
    RetainSame(before, ToSet(ks) * keep, ToSet(Keys(Delete(cur, k))));
  }

  lemma {:induction false} OrderIsStable(prefix: string, p: Progress, args: seq<string>, q: Progress)
    requires Fold(prefix, p, args) == Ok(q) && NeverReadds(prefix, p, args)
    ensures StableOrder(Keys(p.hosts), Keys(q.hosts))
  {
    hide Step;
    var before := Keys(p.hosts);
    if args == [] {
      RetainAll(before, ToSet(before));
    } else {
      var init, arg := args[..|args| - 1], args[|args| - 1];
      var m := Fold(prefix, p, init).value;
      OrderIsStable(prefix, p, init, m);
      var c := StepChange(prefix, m, arg, q);
      if c.Removed? {
        StableDelete(before, m.hosts, c.name);
      } else if Keys(q.hosts) != Keys(m.hosts) {
        var k := Keys(q.hosts)[|m.hosts|];
        assert k in Keys(q.hosts);
        StableAppend(before, Keys(m.hosts), k);
      }
    }
  }

  // Naming no existing host is enough for never re-adding one, if no number that
  // can be reached generates the name of one.
  lemma {:induction false} NewNamesNeverReadd(prefix: string, p: Progress, args: seq<string>)
    requires p.name.None? && NoClash(prefix, p.nextId, p.nextId + |args|, p.hosts)
    requires forall k :: k in NamesGiven(args) ==> k !in Keys(p.hosts)
    ensures NeverReadds(prefix, p, args)
  {
    hide Step, NamesGiven, Generated;
    if args != [] {
      var init, arg := args[..|args| - 1], args[|args| - 1];
      NamesGivenGrow(args, |args| - 1);
      NewNamesNeverReadd(prefix, p, init);
      if Fold(prefix, p, args).Ok? {
        var m, q := Fold(prefix, p, init).value, Fold(prefix, p, args).value;
        IdsGrow(prefix, p, init, m);
        var c := StepChange(prefix, m, arg, q);
        match c
        case Same =>
        case Removed(name) => DeleteKeys(m.hosts, name);
        case Allocated =>
        case Assigned(name, opts) => LeftoverName(prefix, p, args, q);
      }
    }
  }

  // ----- frame: address and deletion arguments

  // The hosts the address arguments add, in argument order: one for each address
  // that is not in the table when its argument is reached.
  function Additions(prefix: string, p: Progress, args: seq<string>): Table {
    if args == [] then [] else
      var init, arg := args[..|args| - 1], args[|args| - 1];
      match Fold(prefix, p, init)
      case Err(_) => Additions(prefix, p, init)
      case Ok(m) =>
        Additions(prefix, p, init) +
        if AddsHost(m.hosts, arg) then [Entry(Generated(prefix, m.nextId), AddressOpts(arg))] else []
  }

  lemma AdditionsLast(prefix: string, p: Progress, args: seq<string>, m: Progress)
    requires args != [] && Fold(prefix, p, args[..|args| - 1]) == Ok(m)
    ensures Additions(prefix, p, args) ==
            var init, arg := args[..|args| - 1], args[|args| - 1];
            if !AddsHost(m.hosts, arg) then Additions(prefix, p, init)
            else Additions(prefix, p, init) + [Entry(Generated(prefix, m.nextId), AddressOpts(arg))]
  {
  }

  // They get consecutive numbers, and only they get any.
  lemma {:induction false} AdditionsAreNumbered(prefix: string, p: Progress, args: seq<string>, q: Progress)
    requires Fold(prefix, p, args) == Ok(q)
    ensures |Additions(prefix, p, args)| == q.nextId - p.nextId
    ensures forall i :: 0 <= i < |Additions(prefix, p, args)| ==>
              Additions(prefix, p, args)[i].key == Generated(prefix, p.nextId + i)
  {
    hide Step, Generated, AddressOpts, AddsHost, Fold;
    if args == [] {
      FoldNone(prefix, p);
    } else {
      hide Additions;
      var init, arg := args[..|args| - 1], args[|args| - 1];
      var m := FoldLast(prefix, p, args, q);
      AdditionsAreNumbered(prefix, p, init, m);
      AdditionsLast(prefix, p, args, m);
      var c := StepChange(prefix, m, arg, q);
    }
  }

  // The table is a selection of all hosts it could hold, up to some names.
  ghost predicate Framed(all: Table, t: Table, except: set<string>) {
    Select(t, ToSet(Keys(t)) - except) == Select(all, ToSet(Keys(t)) - except)
  }

  lemma FrameDelete(all: Table, t: Table, k: string, except: set<string>)
    requires Framed(all, t, except)
    ensures Framed(all, Delete(t, k), except)
  {
    hide Delete, Select;
    var was, now := ToSet(Keys(t)), ToSet(Keys(Delete(t, k)));
    DeleteKeys(t, k);
    assert now == was - {k};
    assert forall i :: 0 <= i < |t| ==> Keys(t)[i] in was;
    DeleteIsSelect(t, k, now);
    SelectTwice(t, now, now - except);
    SelectTwice(t, was - except, now - except);
    SelectTwice(all, was - except, now - except);
    assert now * (now - except) == now - except == (was - except) * (now - except);
  }

  lemma FrameAppend(all: Table, t: Table, e: Entry<Opts>, except: set<string>)
    requires Framed(all, t, except) && e.key !in Keys(all) && e.key !in Keys(t) && e.key !in except
    ensures Framed(all + [e], t + [e], except)
  {
    var was, now := ToSet(Keys(t)) - except, ToSet(Keys(t + [e])) - except;
    assert Keys(t + [e]) == Keys(t) + [e.key];
    assert now == was + {e.key};
    assert forall i :: 0 <= i < |all| ==> Keys(all)[i] == all[i].key;
    assert forall i :: 0 <= i < |t| ==> Keys(t)[i] == t[i].key;
    SelectSame(all, was, now);
    SelectSame(t, was, now);
    assert (all + [e])[..|all|] == all && (t + [e])[..|t|] == t;
  }

  lemma FramePut(all: Table, t: Table, e: Entry<Opts>, except: set<string>)
    requires Framed(all, t, except) && e.key in except
    ensures Framed(all + [e], Put(t, e.key, e.value), except)
  {
    hide Put, Select;
    var keep := ToSet(Keys(t)) - except;
    assert ToSet(Keys(Put(t, e.key, e.value))) - except == keep;
    SelectPut(t, e.key, e.value, keep);
    SelectSnoc(all, e, keep);
  }

  lemma FrameStep(prefix: string, p: Progress, args: seq<string>, m: Progress, arg: string, q: Progress, all: Table,
                  except: set<string>)
    requires Fold(prefix, p, args) == Ok(m) && NamesNone(args)
    requires Step(prefix, m, arg) == Ok(q) && !NamesHost(arg)
    requires all == p.hosts + Additions(prefix, p, args) && Framed(all, m.hosts, except)
    requires AddsHost(m.hosts, arg) && Generated(prefix, m.nextId) in Keys(p.hosts) ==>
               Generated(prefix, m.nextId) in except
    requires except <= ToSet(Keys(p.hosts))
    ensures var e := Entry(Generated(prefix, m.nextId), AddressOpts(arg));
            Framed(if AddsHost(m.hosts, arg) then all + [e] else all, q.hosts, except)
  {
    hide Step, Generated, AddressOpts, AddsHost, Fold, Framed, Additions, Put;
    var c := StepChange(prefix, m, arg, q);
    var e := Entry(Generated(prefix, m.nextId), AddressOpts(arg));
    if c.Removed? {
      FrameDelete(all, m.hosts, c.name, except);
    } else if c.Allocated? {
      if e.key in Keys(p.hosts) {
        FramePut(all, m.hosts, e, except);
      } else {
        NextIsNew(prefix, p, args, m);
        NotYetAdded(prefix, p, args, m);
        PutNew(m.hosts, e.key, e.value);
        FrameAppend(all, m.hosts, e, except);
      }
    }
  }

  lemma FrameNone(prefix: string, p: Progress, except: set<string>)
    ensures Framed(p.hosts + Additions(prefix, p, []), p.hosts, except)
  {
    assert p.hosts + [] == p.hosts;
  }

  lemma NotYetAdded(prefix: string, p: Progress, args: seq<string>, m: Progress)
    requires Fold(prefix, p, args) == Ok(m) && Generated(prefix, m.nextId) !in Keys(p.hosts)
    ensures Generated(prefix, m.nextId) !in Keys(p.hosts + Additions(prefix, p, args))
  {
    hide Generated, Additions, Fold;
    var added := Additions(prefix, p, args);
    AdditionsAreNumbered(prefix, p, args, m);
    assert Keys(p.hosts + added) == Keys(p.hosts) + Keys(added);
    forall i | 0 <= i < |added|
      ensures Keys(added)[i] != Generated(prefix, m.nextId)
    {
      if Generated(prefix, p.nextId + i) == Generated(prefix, m.nextId) {
        GeneratedInjective(prefix, p.nextId + i, m.nextId);
      }
    }
  }

  // The names that clash are among the exceptions.
  ghost predicate Excepts(prefix: string, lo: nat, hi: nat, t: Table, except: set<string>) {
    forall n: nat :: lo <= n < hi && Generated(prefix, n) in Keys(t) ==> Generated(prefix, n) in except
  }

  lemma {:induction false} FrameFold(prefix: string, p: Progress, args: seq<string>, q: Progress, except: set<string>)
    requires Fold(prefix, p, args) == Ok(q) && NamesNone(args)
    requires except <= ToSet(Keys(p.hosts)) && Excepts(prefix, p.nextId, q.nextId, p.hosts, except)
    ensures Framed(p.hosts + Additions(prefix, p, args), q.hosts, except)
  {
    hide Step, Generated, AddressOpts, AddsHost, Fold, Framed, Additions;
    if args == [] {
      FoldNone(prefix, p);
      FrameNone(prefix, p, except);
    } else {
      hide Keys;
      var init, arg := args[..|args| - 1], args[|args| - 1];
      var m := FoldLast(prefix, p, args, q);
      var all := p.hosts + Additions(prefix, p, init);
      IdsGrow(prefix, p, init, m);
      var c := StepChange(prefix, m, arg, q);
      FrameFold(prefix, p, init, m, except);
      AdditionsLast(prefix, p, args, m);
      FrameStep(prefix, p, init, m, arg, q, all, except);
      var e := Entry(Generated(prefix, m.nextId), AddressOpts(arg));
      assert all + [e] == p.hosts + (Additions(prefix, p, init) + [e]);
    }
  }

  // A number whose generated name is that of an old host and of a resulting one.
  ghost predicate Clashes(prefix: string, p: Progress, q: Progress) {
    exists n: nat :: p.nextId <= n < q.nextId &&
                     Generated(prefix, n) in Keys(p.hosts) && Generated(prefix, n) in Keys(q.hosts)
  }

  lemma FrameWithoutClash(prefix: string, p: Progress, args: seq<string>, q: Progress)
    requires Fold(prefix, p, args) == Ok(q) && NamesNone(args) && !Clashes(prefix, p, q)
    ensures q.hosts == Select(p.hosts + Additions(prefix, p, args), ToSet(Keys(q.hosts)))
  {
    hide Fold, Generated, Additions, Select;
    var keep := ToSet(Keys(q.hosts));
    var except := ToSet(Keys(p.hosts)) - keep;
    FrameFold(prefix, p, args, q, except);
    assert keep - except == keep;
    assert forall i :: 0 <= i < |q.hosts| ==> Keys(q.hosts)[i] == q.hosts[i].key;
    SelectAll(q.hosts, keep);
  }

  lemma ClashBreaksFrame(prefix: string, p: Progress, args: seq<string>, q: Progress, n: nat)
    requires Fold(prefix, p, args) == Ok(q) && Unique(Keys(p.hosts))
    requires p.nextId <= n < q.nextId && Generated(prefix, n) in Keys(p.hosts) && Generated(prefix, n) in Keys(q.hosts)
    ensures q.hosts != Select(p.hosts + Additions(prefix, p, args), ToSet(Keys(q.hosts)))
  {
    hide Fold, Generated, Additions, Select, Retain;
    var added, keep, k := Additions(prefix, p, args), ToSet(Keys(q.hosts)), Generated(prefix, n);
    UniqueFold(prefix, p, args);
    AdditionsAreNumbered(prefix, p, args, q);
    assert Keys(added)[n - p.nextId] == k;
    SelectKeys(p.hosts + added, keep);
    assert Keys(p.hosts + added) == Keys(p.hosts) + Keys(added);
    RetainConcat(Keys(p.hosts), Keys(added), keep);
    RetainMembers(Keys(p.hosts), keep);
    RetainMembers(Keys(added), keep);
    TwiceIsNotUnique(Retain(Keys(p.hosts), keep), Retain(Keys(added), keep), k);
  }

  lemma TwiceIsNotUnique(a: seq<string>, b: seq<string>, k: string)
    requires k in a && k in b
    ensures !Unique(a + b)
  {
    var i :| 0 <= i < |a| && a[i] == k;
    var j :| 0 <= j < |b| && b[j] == k;
    assert (a + b)[i] == (a + b)[|a| + j];
  }

  // After address and deletion arguments the table is the survivors, with their
  // names and options, of the old hosts in their old order, followed by those of
  // the hosts added, in argument order and under consecutive numbers: exactly
  // unless a host that is left has both an old and a generated name, which takes
  // a dot in the prefix.
  lemma BuildFrame(prefix: string, hosts: Table, args: seq<string>, q: Progress)
    requires Fold(prefix, Start(hosts), args) == Ok(q) && NamesNone(args) && Unique(Keys(hosts))
    ensures var added := Additions(prefix, Start(hosts), args);
            && (q.hosts == Select(Copied(hosts) + added, ToSet(Keys(q.hosts))) <==> !Clashes(prefix, Start(hosts), q))
            && ('.' !in prefix ==> !Clashes(prefix, Start(hosts), q))
            && forall i :: 0 <= i < |added| ==>
                 added[i].key == Generated(prefix, HighestId(Copied(hosts)) + 1 + i)
  {
    hide Fold, Additions, Select, HighestId, Copied, Generated;
    var p := Start(hosts);
    AdditionsAreNumbered(prefix, p, args, q);
    CopiedUnique(hosts);
    if '.' !in prefix {
      DotFreeNeverClashes(prefix, hosts, q.nextId);
    }
    if n: nat :| p.nextId <= n < q.nextId &&
                 Generated(prefix, n) in Keys(p.hosts) && Generated(prefix, n) in Keys(q.hosts) {
      ClashBreaksFrame(prefix, p, args, q, n);
    } else {
      FrameWithoutClash(prefix, p, args, q);
    }
  }
}
