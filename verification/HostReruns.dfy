/** Running the same address arguments again, and what a dot in the prefix does
    to later runs. */
module HostReruns {
  import opened Text
  import opened OrderedDict
  import opened HostNames
  import opened HostTable
  import opened HostTableChanges
  import opened HostOrder

  lemma {:induction false} FindIpPrefix(t: Table, s: Table, ip: string, i: nat)
    requires i <= |t|
    ensures FindIpFrom(t, ip, i).Ok? && FindIpFrom(t, ip, i).value.Some? ==>
              FindIpFrom(t + s, ip, i) == FindIpFrom(t, ip, i)
    ensures FindIpFrom(t, ip, i) == Ok(None) ==> FindIpFrom(t + s, ip, i) == FindIpFrom(t + s, ip, |t|)
    decreases |t| - i
  {
    if i < |t| {
      FindIpPrefix(t, s, ip, i + 1);
    }
  }

  // The argument finds its host in the table and changes nothing.
  predicate Absorbed(t: Table, arg: string) {
    IsAddress(arg) && ParsePair(arg).Ok? &&
    (arg in Keys(t) || (FindIp(t, ParsePair(arg).value.0).Ok? && FindIp(t, ParsePair(arg).value.0).value.Some?))
  }

  lemma AbsorbedGrows(t: Table, s: Table, arg: string)
    requires Absorbed(t, arg)
    ensures Absorbed(t + s, arg)
  {
    hide ParsePair;
    assert Keys(t + s) == Keys(t) + Keys(s);
    FindIpPrefix(t, s, ParsePair(arg).value.0, 0);
  }

  predicate AllAddresses(args: seq<string>) {
    forall i :: 0 <= i < |args| ==> IsAddress(args[i])
  }

  predicate AllAbsorbed(t: Table, args: seq<string>) {
    forall i :: 0 <= i < |args| ==> Absorbed(t, args[i])
  }

  lemma AddressesNameNone(args: seq<string>)
    requires AllAddresses(args)
    ensures NamesNone(args)
  {
  }

  lemma NoAdditionIsAbsorbed(prefix: string, m: Progress, arg: string, q: Progress)
    requires Step(prefix, m, arg) == Ok(q) && IsAddress(arg) && !AddsHost(m.hosts, arg)
    ensures Absorbed(m.hosts, arg)
  {
    hide FindIp, ParsePair;
    FindIpIs(m.hosts, ParsePair(arg).value.0);
  }

  lemma AbsorbedAfterStep(prefix: string, p: Progress, args: seq<string>, m: Progress, arg: string, q: Progress)
    requires Fold(prefix, p, args) == Ok(m) && NamesNone(args) && IsAddress(arg) && Step(prefix, m, arg) == Ok(q)
    requires NoClash(prefix, m.nextId, q.nextId, p.hosts)
    ensures q.hosts == if AddsHost(m.hosts, arg) then m.hosts + [Entry(Generated(prefix, m.nextId), AddressOpts(arg))]
                       else m.hosts
    ensures Absorbed(q.hosts, arg)
  {
    hide Step, Generated, Fold, ParsePair, AddsHost, AddressOpts;
    var c := StepChange(prefix, m, arg, q);
    if c.Allocated? {
      NextIsNew(prefix, p, args, m);
      PutNew(m.hosts, Generated(prefix, m.nextId), AddressOpts(arg));
      AddedIsAbsorbed(m.hosts, Generated(prefix, m.nextId), arg);
    } else {
      NoAdditionIsAbsorbed(prefix, m, arg, q);
    }
  }

  lemma AddedIsAbsorbed(t: Table, name: string, arg: string)
    requires AddsHost(t, arg)
    ensures Absorbed(t + [Entry(name, AddressOpts(arg))], arg)
  {
    hide FindIp;
    var r := t + [Entry(name, AddressOpts(arg))];
    FindIpIs(r, ParsePair(arg).value.0);
    assert FirstWithIp(r, ParsePair(arg).value.0, |t|);
  }

  // Unless a generated name clashes with that of an old host, addresses only add
  // hosts at the end, and every address given then belongs to a host.
  lemma {:induction false} AddressesAreAbsorbed(prefix: string, p: Progress, args: seq<string>, q: Progress)
    requires Fold(prefix, p, args) == Ok(q) && AllAddresses(args) && NoClash(prefix, p.nextId, q.nextId, p.hosts)
    ensures q.hosts == p.hosts + Additions(prefix, p, args)
    ensures AllAbsorbed(q.hosts, args)
  {
    hide Step, Generated, Fold, AddsHost, AddressOpts, Absorbed, Additions;
    if args == [] {
      hide NoClash;
      FoldNone(prefix, p);
      NoAdditions(prefix, p);
    } else {
      var init, arg := args[..|args| - 1], args[|args| - 1];
      var m := FoldLast(prefix, p, args, q);
      IdsGrow(prefix, p, init, m);
      LastNames(prefix, p, args, m, q, "");
      assert NoClash(prefix, p.nextId, m.nextId, p.hosts) && NoClash(prefix, m.nextId, q.nextId, p.hosts);
      hide NoClash, AllAbsorbed;
      AddressesAreAbsorbed(prefix, p, init, m);
      AddressesNameNone(init);
      AbsorbedAfterStep(prefix, p, init, m, arg, q);
      AdditionsLast(prefix, p, args, m);
      assert args == init + [arg];
      StillAbsorbed(m.hosts, q.hosts, init, arg);
      var e := Entry(Generated(prefix, m.nextId), AddressOpts(arg));
      assert p.hosts + (Additions(prefix, p, init) + [e]) == p.hosts + Additions(prefix, p, init) + [e];
    }
  }

  lemma StillAbsorbed(t: Table, r: Table, args: seq<string>, arg: string)
    requires AllAbsorbed(t, args) && Absorbed(r, arg) && t <= r
    ensures AllAbsorbed(r, args + [arg])
  {
    hide Absorbed;
    assert r == t + r[|t|..];
    forall i | 0 <= i < |args|
      ensures Absorbed(r, args[i])
    {
      AbsorbedGrows(t, r[|t|..], args[i]);
    }
  }

  lemma NoAdditions(prefix: string, p: Progress)
    ensures p.hosts + Additions(prefix, p, []) == p.hosts
  {
  }

  lemma {:induction false} AbsorbedFold(prefix: string, p: Progress, args: seq<string>)
    requires AllAbsorbed(p.hosts, args)
    ensures Fold(prefix, p, args).Ok? && Fold(prefix, p, args).value.hosts == p.hosts
  {
    if args != [] {
      hide Generated, ParsePair, FindIp;
      AbsorbedFold(prefix, p, args[..|args| - 1]);
      assert Absorbed(p.hosts, args[|args| - 1]);
    }
  }

  // ----- with a prefix without a dot

  // Adding the same addresses again changes nothing.
  lemma RebuildChangesNothing(prefix: string, hosts: Table, args: seq<string>, t: Table)
    requires '.' !in prefix && AllNumbered(hosts) && AllAddresses(args) && Build(prefix, hosts, args) == Ok(t)
    ensures AllNumbered(t) && hosts <= t && Copied(t) == t && AllAbsorbed(t, args) && Build(prefix, t, args) == Ok(t)
  {
    hide Step, Generated, HighestId, HostId, NamesGiven, Fold, Copied, Absorbed, Additions;
    var q := Fold(prefix, Start(hosts), args).value;
    CopyIsComplete(hosts);
    AddressesNameNone(args);
    NoNamesGiven(args);
    NumberedFold(prefix, Start(hosts), args, q);
    DotFreeNeverClashes(prefix, hosts, q.nextId);
    AddressesAreAbsorbed(prefix, Start(hosts), args, q);
    CopyIsComplete(t);
    AbsorbedFold(prefix, Start(t), args);
  }

  // ----- with any prefix

  // An address run writes nothing, or it writes a new ip under its first number,
  // which stays.
  lemma {:induction false} FirstWrite(prefix: string, p: Progress, args: seq<string>, q: Progress)
    requires Fold(prefix, p, args) == Ok(q) && AllAddresses(args) && Unique(Keys(p.hosts))
    ensures p.nextId <= q.nextId
    ensures q.nextId == p.nextId ==> q.hosts == p.hosts && AllAbsorbed(p.hosts, args)
    ensures q.nextId > p.nextId ==>
              exists opts :: NewIp(p.hosts, opts) && Entry(Generated(prefix, p.nextId), opts) in q.hosts
  {
    hide Step, Generated, Fold, AddsHost, AddressOpts, Absorbed, Put, IpAbsent;
    if args == [] {
      FoldNone(prefix, p);
    } else {
      var init, arg := args[..|args| - 1], args[|args| - 1];
      var m := FoldLast(prefix, p, args, q);
      FirstWrite(prefix, p, init, m);
      UniqueFold(prefix, p, init);
      var c := StepChange(prefix, m, arg, q);
      if c.Allocated? {
        PutMembers(m.hosts, Generated(prefix, m.nextId), AddressOpts(arg));
        NewIpOfAdded(m.hosts, arg);
        if m.nextId > p.nextId && Generated(prefix, p.nextId) == Generated(prefix, m.nextId) {
          GeneratedInjective(prefix, p.nextId, m.nextId);
        }
      } else {
        NoAdditionIsAbsorbed(prefix, m, arg, q);
      }
    }
  }

  lemma LastIsOutside(t: Table, n: nat)
    requires Unique(Keys(t)) && n < |t|
    ensures t[n] in t && t[n] !in t[..n]
  {
    assert forall i :: 0 <= i < n ==> Keys(t)[i] != Keys(t)[n];
  }

  lemma SameMembers(t: Table, n: nat)
    requires Unique(Keys(t)) && n <= |t| && forall e :: e in t ==> e in t[..n]
    ensures t[..n] == t
  {
    if n < |t| {
      LastIsOutside(t, n);
    }
  }

  lemma {:induction false} CopyEndAt(hosts: Table, i: nat, n: nat)
    requires i <= n < |hosts| && !Numbered(hosts[n].key) && forall j :: i <= j < n ==> Numbered(hosts[j].key)
    ensures CopyEnd(hosts, i) == n + 1
    decreases n - i
  {
    hide HostId;
    if i < n {
      CopyEndAt(hosts, i + 1, n);
    }
  }

  // With a prefix that has a dot and no id, the copy of the result ends with the
  // first host added, and the numbers start with that host's again.
  lemma DottedStart(prefix: string, hosts: Table, args: seq<string>, t: Table)
    requires '.' in prefix && !Numbered(prefix) && AllNumbered(hosts) && AllAddresses(args)
    requires Build(prefix, hosts, args) == Ok(t) && Copied(t) != t
    ensures Generated(prefix, Start(t).nextId) in Keys(Copied(t))
  {
    hide Step, Generated, HostId, Fold, Absorbed, Additions, Copied, HighestId;
    var p, q := Start(hosts), Fold(prefix, Start(hosts), args).value;
    CopyIsComplete(hosts);
    CopyIsComplete(t);
    UnnumberedNeverClash(prefix, hosts, p.nextId, q.nextId);
    AddressesAreAbsorbed(prefix, p, args, q);
    AdditionsAreNumbered(prefix, p, args, q);
    var added := Additions(prefix, p, args);
    assert t == hosts + added;
    assert hosts + [] == hosts;
    if added != [] {
      GeneratedIsNumbered(prefix, p.nextId);
      assert added[0].key == Generated(prefix, p.nextId);
      CopyUpTo(hosts, added[0], t);
    }
  }

  lemma CopyUpTo(hosts: Table, e: Entry<Opts>, t: Table)
    requires AllNumbered(hosts) && !Numbered(e.key) && hosts + [e] <= t
    ensures e.key in Keys(Copied(t)) && Start(t).nextId == HighestId(hosts) + 1
  {
    hide HostId, CopyEnd, HighestId;
    var n := |hosts|;
    assert forall i :: 0 <= i < n ==> t[i] == hosts[i];
    assert t[n] == e;
    CopyEndAt(t, 0, n);
    assert Copied(t) == hosts + [e];
    HighestIdSnoc(hosts, e);
    assert Keys(Copied(t))[n] == e.key;
  }

  lemma UnnumberedNeverClash(prefix: string, t: Table, lo: nat, hi: nat)
    requires '.' in prefix && !Numbered(prefix) && AllNumbered(t)
    ensures NoClash(prefix, lo, hi, t)
  {
    hide Generated, HostId;
    forall n: nat | lo <= n < hi
      ensures Generated(prefix, n) !in Keys(t)
    {
      GeneratedIsNumbered(prefix, n);
    }
  }

  // If building again with the same addresses leaves the same hosts, then it
  // copied them all and found every address.
  lemma SameHostsOnlyIf(prefix: string, hosts: Table, args: seq<string>, t: Table, t': Table)
    requires AllNumbered(hosts) && Unique(Keys(hosts)) && AllAddresses(args)
    requires Build(prefix, hosts, args) == Ok(t) && Build(prefix, t, args) == Ok(t')
    requires forall e :: e in t <==> e in t'
    ensures Copied(t) == t && AllAbsorbed(t, args)
  {
    hide Step, Generated, HostId, Fold, Absorbed, HighestId, CopyEnd, NamesGiven, IpAbsent;
    var s, q := Start(t), Fold(prefix, Start(t), args).value;
    CopiedUnique(hosts);
    UniqueFold(prefix, Start(hosts), args);
    CopiedUnique(t);
    FirstWrite(prefix, s, args, q);
    if q.nextId == s.nextId {
      SameMembers(t, CopyEnd(t, 0));
    } else {
      var opts :| NewIp(s.hosts, opts) && Entry(Generated(prefix, s.nextId), opts) in t';
      var e := Entry(Generated(prefix, s.nextId), opts);
      NewIpIsNoMember(Copied(t), opts);
      assert e in t && e !in Copied(t);
      assert '.' in prefix && !Numbered(prefix) by {
        if '.' !in prefix || Numbered(prefix) {
          CopyIsComplete(hosts);
          AddressesNameNone(args);
          NoNamesGiven(args);
          NumberedFold(prefix, Start(hosts), args, Fold(prefix, Start(hosts), args).value);
          CopyIsComplete(t);
        }
      }
      DottedStart(prefix, hosts, args, t);
      CopiedHasOnly(t, e);
      assert false;
    }
  }

  lemma CopiedHasOnly(t: Table, e: Entry<Opts>)
    requires Unique(Keys(t)) && e in t && e.key in Keys(Copied(t))
    ensures e in Copied(t)
  {
    var c := Copied(t);
    var i :| 0 <= i < |c| && Keys(c)[i] == e.key;
    assert t[i] == c[i] && t[i] in t;
    KeyOfMember(t, e);
  }

  // For any prefix: building again with the same addresses gives the same table
  // exactly when the copy of the first result is complete and every address
  // belongs to one of its hosts.
  lemma RebuildExactly(prefix: string, hosts: Table, args: seq<string>, t: Table)
    requires AllNumbered(hosts) && Unique(Keys(hosts)) && AllAddresses(args) && Build(prefix, hosts, args) == Ok(t)
    ensures Build(prefix, t, args) == Ok(t) <==> Copied(t) == t && AllAbsorbed(t, args)
  {
    hide Fold, Copied, Absorbed, HostId, HighestId;
    if Build(prefix, t, args) == Ok(t) {
      SameHostsOnlyIf(prefix, hosts, args, t, t);
    }
    if Copied(t) == t && AllAbsorbed(t, args) {
      AbsorbedFold(prefix, Start(t), args);
    }
  }

  // It fails, although all hosts have ids, for a prefix with a dot and an id and
  // one host that has the next number.
  lemma DottedPrefixRebuilds(prefix: string, a: string, b: string)
    requires prefix != "" && IsAlpha(prefix[0]) && '.' in prefix && Numbered(prefix)
    requires IsAddress(a) && IsAddress(b) && ',' !in a && ',' !in b && a != b
    ensures var name := Generated(prefix, HostId(prefix).value + 1);
            var hosts, t := [Entry(name, MakeOpts(a, a))], [Entry(name, MakeOpts(b, b))];
            AllNumbered(hosts) && Build(prefix, hosts, [a, b]) == Ok(t) && Build(prefix, t, [a, b]) != Ok(t)
  {
    hide Generated, HostId, MakeOpts, Step;
    var n := HostId(prefix).value + 1;
    var name := Generated(prefix, n);
    var hosts, t := [Entry(name, MakeOpts(a, a))], [Entry(name, MakeOpts(b, b))];
    DottedPrefixHidesId(prefix, n);
    StartOfOne(hosts[0], n - 1);
    GeneratedIsNoAddress(prefix, a, n);
    GeneratedIsNoAddress(prefix, b, n);
    OwnAddress(prefix, name, n, a);
    SameNameGenerated(prefix, Progress(hosts, n, None, Some((a, a))), a, b);
    FoldOfTwo(prefix, Start(hosts), a, b);
    assert Keys(hosts) == [name];
    RebuildExactly(prefix, hosts, [a, b], t);
    OneHostFindIp(name, b, a);
    assert Keys(t) == [name];
    assert [a, b][0] == a && !Absorbed(t, a);
  }

  lemma StartOfOne(e: Entry<Opts>, n: nat)
    requires HostId(e.key) == Some(n)
    ensures Start([e]) == Progress([e], n + 1, None, None)
  {
    hide HostId;
    HighestIdSnoc([], e);
    assert [] + [e] == [e];
  }

  // The prefix must not have a dot: with one, generated names have no id, so a
  // second run copies only the first host, restarts the numbering and loses the
  // other host.
  lemma DottedPrefixLosesHosts(prefix: string, a: string, b: string)
    requires prefix != "" && IsAlpha(prefix[0]) && '.' in prefix && !Numbered(prefix)
    requires IsAddress(a) && IsAddress(b) && ',' !in a && ',' !in b && a != b
    ensures var first := Entry(Generated(prefix, 1), MakeOpts(a, a));
            var second := Entry(Generated(prefix, 2), MakeOpts(b, b));
            Build(prefix, [], [a, b]) == Ok([first, second]) &&
            Build(prefix, [first, second], [a, b]) == Ok([Entry(Generated(prefix, 1), MakeOpts(b, b))])
  {
    hide Step, Generated, MakeOpts, HostId;
    var first, second := Entry(Generated(prefix, 1), MakeOpts(a, a)), Entry(Generated(prefix, 2), MakeOpts(b, b));
    assert Start([]) == Progress([], 1, None, None);
    FirstAddress(prefix, a);
    SecondAddress(prefix, a, b, Some((a, a)));
    FoldOfTwo(prefix, Start([]), a, b);
    DottedPrefixHidesId(prefix, 1);
    assert Copied([first, second]) == [first];
    assert HighestId([first]) == 0 by { HighestIdSnoc([], first); assert [] + [first] == [first]; }
    GeneratedIsNoAddress(prefix, a, 1);
    OwnAddress(prefix, first.key, 1, a);
    GeneratedIsNoAddress(prefix, b, 1);
    var p := Progress([first], 1, None, Some((a, a)));
    SameNameGenerated(prefix, p, a, b);
    FoldOfTwo(prefix, Start([first, second]), a, b);
  }

  ghost predicate AllGenerated(prefix: string, t: Table) {
    forall i :: 0 <= i < |t| ==> exists n: nat :: t[i].key == Generated(prefix, n)
  }

  lemma {:induction false} SameIds(prefix: string, t: Table)
    requires '.' in prefix && Numbered(prefix) && t != []
    requires forall i :: 0 <= i < |t| ==> HostId(t[i].key) == HostId(prefix)
    ensures HighestId(t) == HostId(prefix).value
  {
    hide HostId;
    if |t| > 1 {
      SameIds(prefix, t[..|t| - 1]);
    } else {
      assert t[..0] == [];
    }
  }

  lemma AddressIsAdded(prefix: string, p: Progress, a: string)
    requires AddsHost(p.hosts, a)
    ensures Step(prefix, p, a).Ok?
    ensures Step(prefix, p, a).value.hosts == Put(p.hosts, Generated(prefix, p.nextId), AddressOpts(a))
  {
    hide Generated, Put, FindIp;
    FindIpIs(p.hosts, ParsePair(a).value.0);
  }

  // If the prefix has a dot and an id, all generated names have that one id. A
  // later run starts after it, so it overwrites the host with the next number
  // instead of adding one.
  lemma DottedPrefixOverwrites(prefix: string, hosts: Table, a: string)
    requires '.' in prefix && Numbered(prefix) && AllGenerated(prefix, hosts) && AddsHost(hosts, a)
    requires Generated(prefix, HostId(prefix).value + 1) in Keys(hosts) && Unique(Keys(hosts))
    ensures Build(prefix, hosts, [a]) == Ok(Put(hosts, Generated(prefix, HostId(prefix).value + 1), AddressOpts(a)))
    ensures Keys(Build(prefix, hosts, [a]).value) == Keys(hosts)
  {
    hide HostId, Generated, Put, HighestId, Copied, Step, Fold, AddressOpts, AddsHost;
    forall i | 0 <= i < |hosts|
      ensures HostId(hosts[i].key) == HostId(prefix)
    {
      var n: nat :| hosts[i].key == Generated(prefix, n);
      DottedPrefixHidesId(prefix, n);
    }
    CopyIsComplete(hosts);
    SameIds(prefix, hosts);
    FoldOfOne(prefix, Start(hosts), a);
    AddressIsAdded(prefix, Start(hosts), a);
  }

  lemma GeneratedIsNoAddress(prefix: string, a: string, n: nat)
    requires prefix != "" && IsAlpha(prefix[0]) && IsAddress(a)
    ensures a != Generated(prefix, n)
  {
    assert Generated(prefix, n)[0] == prefix[0];
  }

  lemma FirstAddress(prefix: string, a: string)
    requires IsAddress(a) && ',' !in a
    ensures Step(prefix, Progress([], 1, None, None), a) ==
            Ok(Progress([Entry(Generated(prefix, 1), MakeOpts(a, a))], 2, None, Some((a, a))))
  {
    hide Generated, MakeOpts;
    var p := Progress([], 1, None, Some((a, a)));
    assert Keys(p.hosts) == [] && FindIp(p.hosts, a) == Ok(None);
    assert Put(p.hosts, Generated(prefix, 1), MakeOpts(a, a)) == [Entry(Generated(prefix, 1), MakeOpts(a, a))];
  }

  lemma SecondAddress(prefix: string, a: string, b: string, addresses: Option<(string, string)>)
    requires prefix != "" && IsAlpha(prefix[0]) && IsAddress(b) && ',' !in b && a != b
    ensures var first := Entry(Generated(prefix, 1), MakeOpts(a, a));
            Step(prefix, Progress([first], 2, None, addresses), b) ==
            Ok(Progress([first, Entry(Generated(prefix, 2), MakeOpts(b, b))], 3, None, Some((b, b))))
  {
    hide Generated, MakeOpts;
    var first := Entry(Generated(prefix, 1), MakeOpts(a, a));
    OneHostFindIp(Generated(prefix, 1), a, b);
    GeneratedIsNoAddress(prefix, b, 1);
    assert Keys([first]) == [Generated(prefix, 1)];
    assert Generated(prefix, 1) != Generated(prefix, 2) by {
      if Generated(prefix, 1) == Generated(prefix, 2) {
        GeneratedInjective(prefix, 1, 2);
      }
    }
    FindIs([first], Generated(prefix, 2), 1);
    assert Put([first], Generated(prefix, 2), MakeOpts(b, b)) == [first, Entry(Generated(prefix, 2), MakeOpts(b, b))];
  }

  // A host's own address changes nothing.
  lemma OwnAddress(prefix: string, name: string, n: nat, a: string)
    requires IsAddress(a) && ',' !in a && a != name
    ensures var t := [Entry(name, MakeOpts(a, a))];
            Step(prefix, Progress(t, n, None, None), a) == Ok(Progress(t, n, None, Some((a, a))))
  {
    var t := [Entry(name, MakeOpts(a, a))];
    assert Keys(t) == [name];
    assert GetIp(t[0].value) == Ok(a);
    assert FindIp(t, a) == Ok(Some(0));
  }
}
