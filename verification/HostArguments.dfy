/** What arguments say, told by their characters: the fields between commas, the
    options they give, and when they are accepted. */
module HostArguments {
  import opened Text
  import opened OrderedDict
  import opened HostNames
  import opened HostTable
  import opened HostTableChanges

  // ----- the fields

  // An address with its access address; a single address is both.
  predicate PairFields(arg: string, ip: string, access: string) {
    ',' !in ip && ',' !in access && ((arg == ip && access == ip) || arg == ip + "," + access)
  }

  // A name with an address and an access address, or with one for both.
  predicate NamedFields(arg: string, name: string, ip: string, access: string) {
    ',' !in name && ',' !in ip && ',' !in access &&
    ((arg == name + "," + ip && access == ip) || arg == name + "," + ip + "," + access)
  }

  lemma {:induction false} PartsAreFree(s: string, c: char)
    ensures forall i :: 0 <= i < |Split(s, c)| ==> c !in Split(s, c)[i]
  {
    IndexOfFinds(s, c);
    if IndexOf(s, c) < |s| {
      PartsAreFree(s[IndexOf(s, c) + 1..], c);
    }
  }

  lemma JoinedFields(a: string, b: string, c: string)
    ensures Join([a, b], ',') == a + "," + b && Join([a, b, c], ',') == a + "," + b + "," + c
  {
    assert "," == [','];
    assert [a, b][1..] == [b] && [a, b, c][1..] == [b, c] && [b, c][1..] == [c];
    assert Join([b, c], ',') == b + [','] + c;
  }

  lemma ThreeFields(a: string, b: string, c: string)
    requires ',' !in a && ',' !in b && ',' !in c
    ensures Split(a + "," + b + "," + c, ',') == [a, b, c]
  {
    JoinedFields(a, b, c);
    SplitOfJoin([a, b, c], ',');
  }

  // Reading a pair succeeds exactly for the fields that make up the argument.
  lemma PairExactly(arg: string, ip: string, access: string)
    ensures ParsePair(arg) == Ok((ip, access)) <==> PairFields(arg, ip, access)
  {
    hide Split, Join;
    if ',' in arg {
      PartsAreFree(arg, ',');
      JoinOfSplit(arg, ',');
      var fields := Split(arg, ',');
      if |fields| == 2 {
        assert fields == [fields[0], fields[1]];
        JoinedFields(fields[0], fields[1], "");
      }
    }
    if PairFields(arg, ip, access) && ',' in arg {
      TwoFields(ip, access);
    }
  }

  // The same for a named argument with a comma.
  lemma NamedExactly(p: Progress, arg: string, name: string, ip: string, access: string)
    requires ',' in arg
    ensures ParseNamed(p, arg) == Ok(p.(name := Some(name), addresses := Some((ip, access)))) <==>
            NamedFields(arg, name, ip, access)
  {
    hide Split, Join;
    PartsAreFree(arg, ',');
    JoinOfSplit(arg, ',');
    var fields := Split(arg, ',');
    if |fields| == 2 {
      assert fields == [fields[0], fields[1]];
      JoinedFields(fields[0], fields[1], "");
    } else if |fields| == 3 {
      assert fields == [fields[0], fields[1], fields[2]];
      JoinedFields(fields[0], fields[1], fields[2]);
    }
    if NamedFields(arg, name, ip, access) {
      if arg == name + "," + ip {
        TwoFields(name, ip);
      } else {
        ThreeFields(name, ip, access);
      }
    }
  }

  // ----- the options

  // An address argument describes exactly these options.
  lemma AddressOptions(arg: string, ip: string, access: string)
    requires PairFields(arg, ip, access)
    ensures AddressOpts(arg) == map["ansible_host" := access, "ip" := ip, "access_ip" := access]
  {
    hide ParsePair;
    PairExactly(arg, ip, access);
  }

  // The argument gives its host the address and the access address.
  ghost predicate Addresses(arg: string, ip: string, access: string) {
    (IsAddress(arg) && PairFields(arg, ip, access)) ||
    (NamesHost(arg) && exists name :: NamedFields(arg, name, ip, access))
  }

  // Exactly what a named argument writes: under its name and with its addresses,
  // or under the last name and with the last addresses if it has no comma,
  // provided no host has the ip and the whole argument is no host's name.
  lemma GivenExactly(p: Progress, arg: string, name: string, opts: Opts)
    ensures Given(p, arg) == Some((name, opts)) <==>
            NamesHost(arg) && arg !in Keys(p.hosts) &&
            exists ip, access ::
              && IpAbsent(p.hosts, ip)
              && opts == map["ansible_host" := access, "ip" := ip, "access_ip" := access]
              && if ',' in arg then NamedFields(arg, name, ip, access)
                 else p.name == Some(name) && p.addresses == Some((ip, access))
  {
    hide ParseNamed, IpAbsent;
    if ',' in arg {
      FieldsOrError(p, arg);
      forall ip, access
        ensures ParseNamed(p, arg) == Ok(p.(name := Some(name), addresses := Some((ip, access)))) <==>
                NamedFields(arg, name, ip, access)
      {
        NamedExactly(p, arg, name, ip, access);
      }
    } else {
      assert ParseNamed(p, arg) == Ok(p) by { BareName(p, arg); }
    }
  }

  // A name without a comma keeps the last name and addresses.
  lemma BareName(p: Progress, arg: string)
    requires ',' !in arg
    ensures ParseNamed(p, arg) == Ok(p)
  {
  }

  lemma FieldsOrError(p: Progress, arg: string)
    requires ',' in arg
    ensures match ParseNamed(p, arg)
            case Err(e) => e == WrongFieldCount
            case Ok(q) => exists name, ip, access :: q == p.(name := Some(name), addresses := Some((ip, access)))
  {
    hide Split;
    var fields := Split(arg, ',');
    if |fields| == 3 {
      assert ParseNamed(p, arg) == Ok(p.(name := Some(fields[0]), addresses := Some((fields[1], fields[2]))));
    } else if |fields| == 2 {
      assert ParseNamed(p, arg) == Ok(p.(name := Some(fields[0]), addresses := Some((fields[1], fields[1]))));
    }
  }

  // ----- when an argument is accepted

  predicate AllHaveIps(t: Table) {
    forall i :: 0 <= i < |t| ==> "ip" in t[i].value
  }

  predicate BeginsWithLetter(arg: string) {
    arg != "" && ('a' <= arg[0] <= 'z' || 'A' <= arg[0] <= 'Z')
  }

  predicate BeginsWithDigit(arg: string) {
    arg != "" && '0' <= arg[0] <= '9'
  }

  // A name without a comma needs what earlier arguments have left, unless it is
  // a host's name: addresses, and a name too if no host has the ip.
  predicate BareNameWorks(p: Progress, arg: string) {
    arg in Keys(p.hosts) || (p.addresses.Some? && (IpAbsent(p.hosts, p.addresses.value.0) ==> p.name.Some?))
  }

  ghost predicate Acceptable(p: Progress, arg: string) {
    && arg != ""
    && (BeginsWithDigit(arg) ==> exists ip, access :: PairFields(arg, ip, access))
    && (BeginsWithLetter(arg) ==>
          if ',' in arg then exists name, ip, access :: NamedFields(arg, name, ip, access)
          else BareNameWorks(p, arg))
  }

  // When every host has an ip, an argument fails exactly if it is empty, or
  // begins with a digit and has more than two fields, or begins with a letter and
  // has more than three, or one while no earlier argument has left what it needs.
  lemma AcceptedExactly(prefix: string, p: Progress, arg: string)
    requires AllHaveIps(p.hosts)
    ensures Step(prefix, p, arg).Ok? <==> Acceptable(p, arg)
  {
    hide FindIp, ParsePair, ParseNamed, IpAbsent, Put, Delete, Generated;
    forall ip
      ensures FindIp(p.hosts, ip).Ok? && (FindIp(p.hosts, ip).value.None? <==> IpAbsent(p.hosts, ip))
    {
      FindIpSucceeds(p.hosts, ip, 0);
      assert FindIp(p.hosts, ip).Ok? by { FindIpStarts(p.hosts, ip); }
      FindIpIs(p.hosts, ip);
    }
    if BeginsWithDigit(arg) {
      PairOrError(arg);
    } else if BeginsWithLetter(arg) {
      NamedOrError(p, arg);
    }
  }

  lemma FindIpStarts(t: Table, ip: string)
    ensures FindIp(t, ip) == FindIpFrom(t, ip, 0)
  {
  }

  lemma PairOrError(arg: string)
    ensures ParsePair(arg).Ok? <==> exists ip, access :: PairFields(arg, ip, access)
  {
    hide ParsePair;
    if ParsePair(arg).Ok? {
      var pair := ParsePair(arg).value;
      PairExactly(arg, pair.0, pair.1);
    }
    if ip, access :| PairFields(arg, ip, access) {
      PairExactly(arg, ip, access);
    }
  }

  lemma NamedOrError(p: Progress, arg: string)
    ensures ',' !in arg ==> ParseNamed(p, arg) == Ok(p)
    ensures ',' in arg ==> (ParseNamed(p, arg).Ok? <==> exists name, ip, access :: NamedFields(arg, name, ip, access))
    ensures ',' in arg && ParseNamed(p, arg).Ok? ==>
              ParseNamed(p, arg).value.hosts == p.hosts && ParseNamed(p, arg).value.name.Some? &&
              ParseNamed(p, arg).value.addresses.Some?
  {
    if ',' in arg {
      FieldsOrError(p, arg);
      hide ParseNamed;
      if ParseNamed(p, arg).Ok? {
        var name, ip, access :| ParseNamed(p, arg).value == p.(name := Some(name), addresses := Some((ip, access)));
        NamedExactly(p, arg, name, ip, access);
      }
      if name, ip, access :| NamedFields(arg, name, ip, access) {
        NamedExactly(p, arg, name, ip, access);
      }
    }
  }

  lemma HaveIpsStep(prefix: string, p: Progress, arg: string, r: Progress)
    requires Step(prefix, p, arg) == Ok(r) && AllHaveIps(p.hosts) && Unique(Keys(p.hosts))
    ensures AllHaveIps(r.hosts)
  {
    hide Step, Put, Delete, Given, Generated, AddressOpts, IpAbsent;
    var c := StepChange(prefix, p, arg, r);
    forall i | 0 <= i < |r.hosts|
      ensures "ip" in r.hosts[i].value
    {
      var e := r.hosts[i];
      assert e in r.hosts;
      match c
      case Same =>
      case Removed(name) => DeleteMembers(p.hosts, name);
      case Allocated => PutMembers(p.hosts, Generated(prefix, p.nextId), AddressOpts(arg));
      case Assigned(name, opts) => PutMembers(p.hosts, name, opts);
    }
  }

  // Every argument that is reached is acceptable then.
  ghost predicate AllAcceptable(prefix: string, p: Progress, args: seq<string>) {
    forall i :: 0 <= i < |args| && Fold(prefix, p, args[..i]).Ok? ==>
                Acceptable(Fold(prefix, p, args[..i]).value, args[i])
  }

  lemma AllAcceptableLast(prefix: string, p: Progress, args: seq<string>)
    requires args != []
    ensures var init, arg := args[..|args| - 1], args[|args| - 1];
            AllAcceptable(prefix, p, args) <==>
              AllAcceptable(prefix, p, init) &&
              (Fold(prefix, p, init).Ok? ==> Acceptable(Fold(prefix, p, init).value, arg))
  {
    hide Fold, Acceptable;
    var init := args[..|args| - 1];
    assert forall i :: 0 <= i < |init| ==> init[..i] == args[..i] && init[i] == args[i];
  }

  lemma {:induction false} FoldAcceptedExactly(prefix: string, p: Progress, args: seq<string>)
    requires AllHaveIps(p.hosts) && Unique(Keys(p.hosts))
    ensures Fold(prefix, p, args).Ok? <==> AllAcceptable(prefix, p, args)
    ensures Fold(prefix, p, args).Ok? ==> AllHaveIps(Fold(prefix, p, args).value.hosts)
  {
    hide Step, Acceptable, AllHaveIps;
    if args != [] {
      hide AllAcceptable;
      var init, arg := args[..|args| - 1], args[|args| - 1];
      FoldAcceptedExactly(prefix, p, init);
      AllAcceptableLast(prefix, p, args);
      if Fold(prefix, p, init).Ok? {
        var m := Fold(prefix, p, init).value;
        UniqueFold(prefix, p, init);
        AcceptedExactly(prefix, m, arg);
        if Step(prefix, m, arg).Ok? {
          HaveIpsStep(prefix, m, arg, Step(prefix, m, arg).value);
        }
      }
    }
  }

  // So the table is built exactly if every argument is acceptable when it is
  // reached.
  lemma BuiltExactly(prefix: string, hosts: Table, args: seq<string>)
    requires AllHaveIps(hosts) && Unique(Keys(hosts))
    ensures Build(prefix, hosts, args).Ok? <==> AllAcceptable(prefix, Start(hosts), args)
  {
    hide Fold, AllAcceptable, HighestId;
    CopiedUnique(hosts);
    FoldAcceptedExactly(prefix, Start(hosts), args);
  }

  // Deleting what is no host's name or ip changes nothing, and neither does an
  // argument that begins otherwise.
  lemma AcceptedWithoutChange(prefix: string, p: Progress, arg: string)
    requires arg != "" && !BeginsWithDigit(arg) && !BeginsWithLetter(arg)
    requires arg[0] == '-' ==> arg[1..] !in Keys(p.hosts) && IpAbsent(p.hosts, arg[1..])
    ensures Step(prefix, p, arg) == Ok(p)
  {
    hide FindIp;
    FindIpIs(p.hosts, arg[1..]);
  }

  // What an argument leaves for later ones: its addresses, and its name.
  lemma LeftForLater(prefix: string, p: Progress, arg: string, r: Progress)
    requires Step(prefix, p, arg) == Ok(r)
    ensures if BeginsWithDigit(arg) then
              r.name == p.name && r.addresses.Some? && PairFields(arg, r.addresses.value.0, r.addresses.value.1)
            else if BeginsWithLetter(arg) && ',' in arg then
              && r.name.Some? && r.addresses.Some?
              && NamedFields(arg, r.name.value, r.addresses.value.0, r.addresses.value.1)
            else r.name == p.name && r.addresses == p.addresses
  {
    hide FindIp, ParsePair, ParseNamed, Put, Delete, Generated;
    if BeginsWithDigit(arg) {
      var pair := ParsePair(arg).value;
      PairExactly(arg, pair.0, pair.1);
    } else if BeginsWithLetter(arg) {
      NamedOrError(p, arg);
      if ',' in arg {
        FieldsOrError(p, arg);
        var name, ip, access :| ParseNamed(p, arg).value == p.(name := Some(name), addresses := Some((ip, access)));
        NamedExactly(p, arg, name, ip, access);
      }
    }
  }

  // ----- the options in the resulting table

  ghost predicate FromArguments(args: seq<string>, ip: string, access: string) {
    exists i :: 0 <= i < |args| && Addresses(args[i], ip, access)
  }

  lemma FromMore(args: seq<string>, arg: string, ip: string, access: string)
    ensures FromArguments(args + [arg], ip, access) <==>
            FromArguments(args, ip, access) || Addresses(arg, ip, access)
  {
    hide Addresses;
    var all := args + [arg];
    assert all[|args|] == arg;
    if FromArguments(args, ip, access) {
      var i :| 0 <= i < |args| && Addresses(args[i], ip, access);
      assert all[i] == args[i];
    }
  }

  ghost predicate OptionsFrom(args: seq<string>, opts: Opts) {
    exists ip, access ::
      FromArguments(args, ip, access) && opts == map["ansible_host" := access, "ip" := ip, "access_ip" := access]
  }

  // One argument writes options with its own addresses or the ones left to it.
  lemma WritesAddresses(prefix: string, p: Progress, arg: string, r: Progress, e: Entry<Opts>)
    requires Step(prefix, p, arg) == Ok(r) && Unique(Keys(p.hosts)) && e in r.hosts && e !in p.hosts
    ensures exists ip, access ::
              && (Addresses(arg, ip, access) || p.addresses == Some((ip, access)))
              && e.value == map["ansible_host" := access, "ip" := ip, "access_ip" := access]
  {
    hide Step, Put, Delete, Given, Generated, PairFields, NamedFields, AddressOpts, IpAbsent;
    var c := StepChange(prefix, p, arg, r);
    match c
    case Same => assert false;
    case Removed(name) =>
      DeleteMembers(p.hosts, name);
      assert false;
    case Allocated =>
      PutMembers(p.hosts, Generated(prefix, p.nextId), AddressOpts(arg));
      PairOfAdded(p.hosts, arg);
      var ip, access :| PairFields(arg, ip, access);
      AddressOptions(arg, ip, access);
    case Assigned(name, opts) =>
      PutMembers(p.hosts, name, opts);
      GivenExactly(p, arg, name, opts);
  }

  lemma PairOfAdded(t: Table, arg: string)
    requires AddsHost(t, arg)
    ensures exists ip, access :: PairFields(arg, ip, access)
  {
    hide ParsePair, PairFields;
    PairOrError(arg);
  }

  lemma {:induction false} OptionsAfterRun(prefix: string, p: Progress, args: seq<string>, q: Progress)
    requires Fold(prefix, p, args) == Ok(q) && Unique(Keys(p.hosts)) && p.addresses.None?
    ensures q.addresses.Some? ==> FromArguments(args, q.addresses.value.0, q.addresses.value.1)
    ensures forall e :: e in q.hosts ==> e in p.hosts || OptionsFrom(args, e.value)
  {
    if args == [] {
      FoldNone(prefix, p);
    } else {
      hide Step, Fold, Addresses, FromArguments;
      var init, arg := args[..|args| - 1], args[|args| - 1];
      assert args == init + [arg];
      var m := FoldLast(prefix, p, args, q);
      OptionsAfterRun(prefix, p, init, m);
      UniqueFold(prefix, p, init);
      forall ip, access
        ensures FromArguments(args, ip, access) <==> FromArguments(init, ip, access) || Addresses(arg, ip, access)
      {
        FromMore(init, arg, ip, access);
      }
      AddressesLeft(prefix, m, arg, q);
      forall e | e in q.hosts && e !in p.hosts
        ensures OptionsFrom(args, e.value)
      {
        if e !in m.hosts {
          WritesAddresses(prefix, m, arg, q, e);
        }
      }
    }
  }

  lemma AddressesLeft(prefix: string, p: Progress, arg: string, r: Progress)
    requires Step(prefix, p, arg) == Ok(r)
    ensures r.addresses == p.addresses ||
            (r.addresses.Some? && Addresses(arg, r.addresses.value.0, r.addresses.value.1))
  {
    hide Step, PairFields, NamedFields;
    LeftForLater(prefix, p, arg, r);
  }

  // Every host of the resulting table is an old one with its options, or has as
  // options exactly the addresses of some argument.
  lemma BuiltOptions(prefix: string, hosts: Table, args: seq<string>, t: Table)
    requires Build(prefix, hosts, args) == Ok(t) && Unique(Keys(hosts))
    ensures forall e :: e in t ==> e in Copied(hosts) || OptionsFrom(args, e.value)
  {
    hide Fold, Copied, HighestId;
    CopiedUnique(hosts);
    OptionsAfterRun(prefix, Start(hosts), args, Fold(prefix, Start(hosts), args).value);
  }

  // For instance: an address pair alone, as a first run.
  lemma OnePair(prefix: string, ip: string, access: string)
    requires BeginsWithDigit(ip) && ',' !in ip && ',' !in access
    ensures Build(prefix, [], [ip + "," + access]) ==
            Ok([Entry(prefix + "1", map["ansible_host" := access, "ip" := ip, "access_ip" := access])])
  {
    hide Step, Fold, ParsePair, PairFields;
    var arg := ip + "," + access;
    assert arg[0] == ip[0];
    assert PairFields(arg, ip, access) by { PairIsPair(ip, access); }
    AddressOptions(arg, ip, access);
    FoldOfOne(prefix, Start([]), arg);
    assert Decimal(1) == "1";
    FirstHost(prefix, arg);
  }

  lemma PairIsPair(ip: string, access: string)
    requires ',' !in ip && ',' !in access
    ensures PairFields(ip + "," + access, ip, access)
  {
  }

  lemma FirstHost(prefix: string, arg: string)
    requires IsAddress(arg) && "ip" in AddressOpts(arg)
    ensures Step(prefix, Start([]), arg).Ok?
    ensures Step(prefix, Start([]), arg).value.hosts == [Entry(Generated(prefix, 1), AddressOpts(arg))]
  {
    var p := Start([]);
    assert Keys(p.hosts) == [] && AddsHost(p.hosts, arg);
    FindIpIs(p.hosts, ParsePair(arg).value.0);
    PutNew(p.hosts, Generated(prefix, 1), AddressOpts(arg));
  }
}
