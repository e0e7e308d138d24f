/** What one argument, and then a whole argument list, can do to a host table:
    uniqueness of names and addresses, and freshness of generated names. */
module HostTableChanges {
  import opened Text
  import opened OrderedDict
  import opened HostNames
  import opened HostTable

  // The only ways in which one argument changes the table.
  datatype Change =
    | Same
    | Removed(name: string)
    | Allocated
    | Assigned(name: string, opts: Opts)

  function Apply(prefix: string, p: Progress, arg: string, c: Change): Table {
    match c
    case Same => p.hosts
    case Removed(name) => Delete(p.hosts, name)
    case Allocated => Put(p.hosts, Generated(prefix, p.nextId), AddressOpts(arg))
    case Assigned(name, opts) => Put(p.hosts, name, opts)
  }

  // No host has this ip, and every host has one.
  predicate IpAbsent(t: Table, ip: string) {
    forall i :: 0 <= i < |t| ==> "ip" in t[i].value && t[i].value["ip"] != ip
  }

  predicate NewIp(t: Table, opts: Opts) {
    "ip" in opts && IpAbsent(t, opts["ip"])
  }

  // The first host with this ip; a scan for it meets no host without an ip before.
  predicate FirstWithIp(t: Table, ip: string, i: nat) {
    i < |t| && GetIp(t[i].value) == Ok(ip) && forall j :: 0 <= j < i ==> "ip" in t[j].value && t[j].value["ip"] != ip
  }

  lemma {:induction false} FindIpMeans(t: Table, ip: string, i: nat)
    requires i <= |t| && FindIpFrom(t, ip, i).Ok?
    ensures match FindIpFrom(t, ip, i).value
            case None => forall j :: i <= j < |t| ==> "ip" in t[j].value && t[j].value["ip"] != ip
            case Some(n) =>
              GetIp(t[n].value) == Ok(ip) &&
              forall j :: i <= j < n ==> "ip" in t[j].value && t[j].value["ip"] != ip
    decreases |t| - i
  {
    if i < |t| && GetIp(t[i].value) != Ok(ip) {
      FindIpMeans(t, ip, i + 1);
    }
  }

  lemma {:induction false} FindIpSkips(t: Table, ip: string, i: nat, n: nat)
    requires i <= n <= |t| && forall j :: i <= j < n ==> "ip" in t[j].value && t[j].value["ip"] != ip
    ensures FindIpFrom(t, ip, i) == FindIpFrom(t, ip, n)
    decreases n - i
  {
    if i < n {
      FindIpSkips(t, ip, i + 1, n);
    }
  }

  // What the scan answers, told by the ips in the table.
  lemma FindIpIs(t: Table, ip: string)
    ensures FindIp(t, ip) == Ok(None) <==> IpAbsent(t, ip)
    ensures forall i: nat :: FindIp(t, ip) == Ok(Some(i)) <==> FirstWithIp(t, ip, i)
  {
    if FindIp(t, ip).Ok? {
      FindIpMeans(t, ip, 0);
    }
    if IpAbsent(t, ip) {
      FindIpSkips(t, ip, 0, |t|);
    }
    forall i: nat | FirstWithIp(t, ip, i)
      ensures FindIp(t, ip) == Ok(Some(i))
    {
      FindIpSkips(t, ip, 0, i);
    }
  }

  // The options of the host an address argument describes.
  function AddressOpts(arg: string): Opts {
    match ParsePair(arg)
    case Ok(pair) => MakeOpts(pair.0, pair.1)
    case Err(_) => map[]
  }

  predicate NamesHost(arg: string) {
    arg != "" && IsAlpha(arg[0])
  }

  // An address that no host has, in an argument that is no host's name.
  predicate AddsHost(t: Table, arg: string) {
    IsAddress(arg) && arg !in Keys(t) && NewIp(t, AddressOpts(arg))
  }

  // The host and the options a named argument writes: none if the whole
  // argument is a host's name or a host has the ip.
  function Given(p: Progress, arg: string): Option<(string, Opts)> {
    if !NamesHost(arg) || arg in Keys(p.hosts) then None else
      match ParseNamed(p, arg)
      case Ok(Progress(_, _, Some(name), Some(pair))) =>
        if IpAbsent(p.hosts, pair.0) then Some((name, MakeOpts(pair.0, pair.1))) else None
      case _ => None
  }

  // The deletion target is the name of this host or, if it is no host's name,
  // this host is the first one with it as ip.
  predicate Deletes(t: Table, target: string, name: string) {
    (name == target && name in Keys(t)) ||
    (target !in Keys(t) && exists i :: 0 <= i < |t| && FirstWithIp(t, target, i) && t[i].key == name)
  }

  predicate Explains(p: Progress, arg: string, r: Progress, c: Change) {
    match c
    case Same =>
      r.nextId == p.nextId && !AddsHost(p.hosts, arg) && Given(p, arg).None? &&
      (IsDeletion(arg) ==> arg[1..] !in Keys(p.hosts) && IpAbsent(p.hosts, arg[1..]))
    case Removed(name) =>
      r.nextId == p.nextId && IsDeletion(arg) && Deletes(p.hosts, arg[1..], name)
    case Allocated =>
      r.nextId == p.nextId + 1 && AddsHost(p.hosts, arg)
    case Assigned(name, opts) =>
      r.nextId == p.nextId && Given(p, arg) == Some((name, opts)) && r.name == Some(name) && NewIp(p.hosts, opts)
  }

  lemma NewIpOfAdded(t: Table, arg: string)
    requires AddsHost(t, arg)
    ensures NewIp(t, AddressOpts(arg))
  {
  }

  lemma NewIpIsNoMember(t: Table, opts: Opts)
    requires NewIp(t, opts)
    ensures forall x :: x in t ==> GetIp(x.value) != GetIp(opts)
  {
  }

  lemma DeletionChange(prefix: string, p: Progress, arg: string, r: Progress) returns (c: Change)
    requires Step(prefix, p, arg) == Ok(r) && IsDeletion(arg)
    ensures r.hosts == Apply(prefix, p, arg, c) && Explains(p, arg, r, c) && (c.Same? || c.Removed?)
  {
    hide FindIp, Delete, Given, AddsHost;
    var target := arg[1..];
    NoAddition(p, arg);
    FindIpIs(p.hosts, target);
    c := Same;
    if target in Keys(p.hosts) {
      c := Removed(target);
    } else if FindIp(p.hosts, target).value.Some? {
      var i := FindIp(p.hosts, target).value.value;
      assert FirstWithIp(p.hosts, target, i);
      c := Removed(p.hosts[i].key);
    }
  }

  lemma NoAddition(p: Progress, arg: string)
    ensures !IsAddress(arg) ==> !AddsHost(p.hosts, arg)
    ensures !NamesHost(arg) ==> Given(p, arg).None?
  {
  }

  lemma AddressChange(prefix: string, p: Progress, arg: string, r: Progress) returns (c: Change)
    requires Step(prefix, p, arg) == Ok(r) && IsAddress(arg)
    ensures r.hosts == Apply(prefix, p, arg, c) && Explains(p, arg, r, c) && (c.Same? || c.Allocated?)
  {
    hide FindIp, Put, Generated, Given;
    NoAddition(p, arg);
    FindIpIs(p.hosts, ParsePair(arg).value.0);
    c := if r.nextId != p.nextId then Allocated else Same;
  }

  lemma NameChange(prefix: string, p: Progress, arg: string, r: Progress) returns (c: Change)
    requires Step(prefix, p, arg) == Ok(r) && NamesHost(arg)
    ensures r.hosts == Apply(prefix, p, arg, c) && Explains(p, arg, r, c) && (c.Same? || c.Assigned?)
  {
    hide FindIp, Put, AddsHost;
    NoAddition(p, arg);
    c := Same;
    if arg !in Keys(p.hosts) {
      FindIpIs(p.hosts, r.addresses.value.0);
      if IpAbsent(p.hosts, r.addresses.value.0) {
        c := Assigned(r.name.value, MakeOpts(r.addresses.value.0, r.addresses.value.1));
      }
    }
  }

  // Exactly one change describes an argument, and it is the one the hosts and
  // the argument ask for.
  lemma StepChange(prefix: string, p: Progress, arg: string, r: Progress) returns (c: Change)
    requires Step(prefix, p, arg) == Ok(r)
    ensures r.hosts == Apply(prefix, p, arg, c) && Explains(p, arg, r, c)
    ensures c.Allocated? <==> AddsHost(p.hosts, arg)
    ensures c.Assigned? <==> Given(p, arg).Some?
    ensures IsDeletion(arg) ==> c.Same? || c.Removed?
  {
    hide Given, AddsHost, DeleteStep, AddressStep, NameStep, Put, Delete;
    NoAddition(p, arg);
    if IsDeletion(arg) {
      c := DeletionChange(prefix, p, arg, r);
    } else if IsAddress(arg) {
      c := AddressChange(prefix, p, arg, r);
    } else if NamesHost(arg) {
      c := NameChange(prefix, p, arg, r);
    } else {
      c := Same;
    }
  }

  // The fields of an argument are the ones its author separated by commas.
  lemma ArgumentFields(p: Progress, name: string, ip: string, accessIp: string)
    requires ',' !in name && ',' !in ip && ',' !in accessIp
    ensures AddressOpts(ip + "," + accessIp) == MakeOpts(ip, accessIp) && AddressOpts(ip) == MakeOpts(ip, ip)
    ensures ParseNamed(p, name + "," + ip + "," + accessIp) ==
            Ok(p.(name := Some(name), addresses := Some((ip, accessIp))))
    ensures ParseNamed(p, name + "," + ip) == Ok(p.(name := Some(name), addresses := Some((ip, ip))))
  {
    hide Split, MakeOpts;
    TwoFields(ip, accessIp);
    TwoFields(name, ip);
    var three := name + "," + ip + "," + accessIp;
    assert three == name + [','] + (ip + "," + accessIp);
    assert three[|name|] == ',';
    SplitAfter(name, ',', ip + "," + accessIp);
  }

  lemma TwoFields(first: string, second: string)
    requires ',' !in first && ',' !in second
    ensures ',' in first + "," + second && Split(first + "," + second, ',') == [first, second]
  {
    var arg := first + "," + second;
    assert arg[|first|] == ',';
    assert "," == [','];
    SplitAfter(first, ',', second);
    IndexOfFinds(second, ',');
  }

  lemma FoldNone(prefix: string, p: Progress)
    ensures Fold(prefix, p, []) == Ok(p)
  {
  }

  lemma FoldOfOne(prefix: string, p: Progress, a: string)
    ensures Fold(prefix, p, [a]) == Step(prefix, p, a)
  {
    hide Step;
    assert [a][..0] == [];
    FoldNone(prefix, p);
  }

  lemma FoldOfTwo(prefix: string, p: Progress, a: string, b: string)
    ensures Fold(prefix, p, [a, b]) == match Step(prefix, p, a)
                                       case Err(e) => Err(e)
                                       case Ok(q) => Step(prefix, q, b)
  {
    hide Step;
    assert [a, b][..1] == [a];
    FoldOfOne(prefix, p, a);
  }

  lemma FoldLast(prefix: string, p: Progress, args: seq<string>, q: Progress) returns (m: Progress)
    requires args != [] && Fold(prefix, p, args) == Ok(q)
    ensures Fold(prefix, p, args[..|args| - 1]) == Ok(m) && Step(prefix, m, args[|args| - 1]) == Ok(q)
  {
    hide Step;
    m := Fold(prefix, p, args[..|args| - 1]).value;
  }

  // ----- host names stay distinct

  lemma UniqueStep(prefix: string, p: Progress, arg: string, r: Progress)
    requires Step(prefix, p, arg) == Ok(r) && Unique(Keys(p.hosts))
    ensures Unique(Keys(r.hosts))
  {
    hide Step;
    var c := StepChange(prefix, p, arg, r);
    if c.Removed? {
      DeleteKeys(p.hosts, c.name);
    }
  }

  lemma {:induction false} UniqueFold(prefix: string, p: Progress, args: seq<string>)
    requires Unique(Keys(p.hosts))
    ensures Fold(prefix, p, args).Ok? ==> Unique(Keys(Fold(prefix, p, args).value.hosts))
  {
    hide Step;
    if args != [] {
      var init := args[..|args| - 1];
      UniqueFold(prefix, p, init);
      if Fold(prefix, p, args).Ok? {
        UniqueStep(prefix, Fold(prefix, p, init).value, args[|args| - 1], Fold(prefix, p, args).value);
      }
    }
  }

  lemma CopiedUnique(hosts: Table)
    requires Unique(Keys(hosts))
    ensures Unique(Keys(Copied(hosts)))
  {
    assert Keys(Copied(hosts)) == Keys(hosts)[..|Copied(hosts)|];
  }

  // ----- addresses stay distinct

  predicate IpsDistinct(t: Table) {
    && (forall i :: 0 <= i < |t| ==> "ip" in t[i].value)
    && (forall i, j :: 0 <= i < j < |t| ==> t[i].value["ip"] != t[j].value["ip"])
  }

  lemma {:induction false} DeleteKeepsAbsent(t: Table, k: string, ip: string)
    requires IpAbsent(t, ip)
    ensures IpAbsent(Delete(t, k), ip)
  {
    if t != [] {
      DeleteKeepsAbsent(t[..|t| - 1], k, ip);
    }
  }

  lemma {:induction false} DeleteKeepsIps(t: Table, k: string)
    requires IpsDistinct(t)
    ensures IpsDistinct(Delete(t, k))
  {
    if t != [] {
      var init, last := t[..|t| - 1], t[|t| - 1];
      DeleteKeepsIps(init, k);
      DeleteKeepsAbsent(init, k, last.value["ip"]);
    }
  }

  lemma PutKeepsIps(t: Table, k: string, opts: Opts)
    requires IpsDistinct(t) && NewIp(t, opts)
    ensures IpsDistinct(Put(t, k, opts))
  {
  }

  lemma {:induction false} IpsFold(prefix: string, p: Progress, args: seq<string>)
    requires IpsDistinct(p.hosts)
    ensures Fold(prefix, p, args).Ok? ==> IpsDistinct(Fold(prefix, p, args).value.hosts)
    ensures Fold(prefix, p, args) != Err(MissingIp)
  {
    hide Step;
    if args != [] {
      var init, arg := args[..|args| - 1], args[|args| - 1];
      IpsFold(prefix, p, init);
      if Fold(prefix, p, init).Ok? {
        var q := Fold(prefix, p, init).value;
        NoIpMissing(prefix, q, arg);
        if Step(prefix, q, arg).Ok? {
          var c := StepChange(prefix, q, arg, Step(prefix, q, arg).value);
          match c
          case Same =>
          case Removed(name) => DeleteKeepsIps(q.hosts, name);
          case Allocated => PutKeepsIps(q.hosts, Generated(prefix, q.nextId), AddressOpts(arg));
          case Assigned(name, opts) => PutKeepsIps(q.hosts, name, opts);
        }
      }
    }
  }

  lemma {:induction false} FindIpSucceeds(t: Table, ip: string, i: nat)
    requires i <= |t| && forall j :: 0 <= j < |t| ==> "ip" in t[j].value
    ensures FindIpFrom(t, ip, i).Ok?
    decreases |t| - i
  {
    if i < |t| {
      FindIpSucceeds(t, ip, i + 1);
    }
  }

  lemma NoIpMissing(prefix: string, p: Progress, arg: string)
    requires IpsDistinct(p.hosts)
    ensures Step(prefix, p, arg) != Err(MissingIp)
  {
    forall ip
      ensures FindIp(p.hosts, ip).Ok?
    {
      FindIpSucceeds(p.hosts, ip, 0);
    }
  }

  // Whatever the arguments are, hosts that have pairwise distinct ips before
  // have pairwise distinct ips after, and no run fails for a missing ip.
  lemma IpsStayDistinct(prefix: string, hosts: Table, args: seq<string>)
    requires IpsDistinct(hosts)
    ensures match Build(prefix, hosts, args)
            case Ok(t) => IpsDistinct(t)
            case Err(e) => e != MissingIp
  {
    IpsFold(prefix, Start(hosts), args);
  }

  // ----- generated names are fresh

  lemma {:induction false} HighestIdBounds(t: Table, i: nat)
    requires i < |t| && Numbered(t[i].key)
    ensures HostId(t[i].key).value <= HighestId(t)
  {
    hide HostId;
    if i < |t| - 1 {
      HighestIdBounds(t[..|t| - 1], i);
    }
  }

  // The highest id is that of a host, or zero.
  lemma {:induction false} HighestIdIsAttained(t: Table)
    ensures HighestId(t) == 0 || exists i :: 0 <= i < |t| && HostId(t[i].key) == Some(HighestId(t))
  {
    hide HostId;
    if t != [] {
      HighestIdIsAttained(t[..|t| - 1]);
    }
  }

  // An id above the highest one names no copied host.
  lemma AboveHighest(prefix: string, hosts: Table, n: nat)
    requires '.' !in prefix && n >= Start(hosts).nextId
    ensures Generated(prefix, n) !in Keys(Start(hosts).hosts)
  {
    hide HostId, HighestId, Generated;
    var t := Start(hosts).hosts;
    GeneratedId(prefix, n);
    forall i | 0 <= i < |t|
      ensures t[i].key != Generated(prefix, n)
    {
      if Numbered(t[i].key) {
        HighestIdBounds(t, i);
      }
    }
  }

  // Every host name that was in the table at some moment of the run.
  ghost function EverPresent(prefix: string, p: Progress, args: seq<string>): set<string> {
    (if args == [] then {} else EverPresent(prefix, p, args[..|args| - 1])) +
    (match Fold(prefix, p, args)
     case Ok(q) => ToSet(Keys(q.hosts))
     case Err(_) => {})
  }

  // The host names given by the named arguments.
  function NamesGiven(args: seq<string>): set<string> {
    set i | 0 <= i < |args| && NamesHost(args[i]) && ',' in args[i] :: Split(args[i], ',')[0]
  }

  lemma NamesGivenGrow(args: seq<string>, n: nat)
    requires n <= |args|
    ensures NamesGiven(args[..n]) <= NamesGiven(args)
  {
    forall k | k in NamesGiven(args[..n])
      ensures k in NamesGiven(args)
    {
      var i :| 0 <= i < n && NamesHost(args[..n][i]) && ',' in args[..n][i] && Split(args[..n][i], ',')[0] == k;
      assert args[..n][i] == args[i];
    }
  }

  lemma NameStepSource(prefix: string, p: Progress, arg: string, r: Progress)
    requires Step(prefix, p, arg) == Ok(r)
    ensures r.name == p.name || (NamesHost(arg) && ',' in arg && r.name == Some(Split(arg, ',')[0]))
  {
    hide Split;
  }

  // A name left over from earlier arguments was given by one of them.
  lemma {:induction false} LeftoverName(prefix: string, p: Progress, args: seq<string>, q: Progress)
    requires p.name.None? && Fold(prefix, p, args) == Ok(q) && q.name.Some?
    ensures q.name.value in NamesGiven(args)
  {
    hide Step, Split;
    var init, arg := args[..|args| - 1], args[|args| - 1];
    var m := Fold(prefix, p, init).value;
    NameStepSource(prefix, m, arg, q);
    if q.name == m.name {
      LeftoverName(prefix, p, init, m);
      NamesGivenGrow(args, |args| - 1);
    }
  }

  // The i-th argument of the run names the host k and takes effect.
  predicate Takes(prefix: string, p: Progress, args: seq<string>, i: nat, k: string) {
    i < |args| &&
    match Fold(prefix, p, args[..i])
    case Ok(m) => Given(m, args[i]).Some? && Given(m, args[i]).value.0 == k
    case Err(_) => false
  }

  lemma TakesBefore(prefix: string, p: Progress, args: seq<string>, n: nat)
    requires n <= |args|
    ensures forall i: nat, k :: i < n ==> (Takes(prefix, p, args[..n], i, k) <==> Takes(prefix, p, args, i, k))
  {
    hide Given, Fold;
    forall i: nat, k | i < n
      ensures Takes(prefix, p, args[..n], i, k) <==> Takes(prefix, p, args, i, k)
    {
      assert args[..n][..i] == args[..i] && args[..n][i] == args[i];
    }
  }

  lemma TakesIsGiven(prefix: string, p: Progress, args: seq<string>, i: nat, k: string)
    requires p.name.None? && Takes(prefix, p, args, i, k)
    ensures k in NamesGiven(args)
  {
    hide Step, Split;
    assert args[..i + 1][..i] == args[..i] && args[..i + 1][i] == args[i];
    var m := Fold(prefix, p, args[..i]).value;
    assert Step(prefix, m, args[i]).Ok? by { GivenSucceeds(prefix, m, args[i]); }
    var r := Step(prefix, m, args[i]).value;
    assert Fold(prefix, p, args[..i + 1]) == Ok(r);
    var c := StepChange(prefix, m, args[i], r);
    LeftoverName(prefix, p, args[..i + 1], r);
    NamesGivenGrow(args, i + 1);
  }

  lemma GivenSucceeds(prefix: string, p: Progress, arg: string)
    requires Given(p, arg).Some?
    ensures Step(prefix, p, arg).Ok?
  {
    hide FindIp;
    FindIpIs(p.hosts, ParseNamed(p, arg).value.addresses.value.0);
  }

  ghost predicate Taken(prefix: string, p: Progress, args: seq<string>, k: string) {
    exists i: nat :: Takes(prefix, p, args, i, k)
  }

  ghost predicate GeneratedFrom(prefix: string, lo: nat, hi: nat, k: string) {
    exists n: nat :: lo <= n < hi && k == Generated(prefix, n)
  }

  lemma TakenLast(prefix: string, p: Progress, args: seq<string>, k: string)
    requires args != []
    ensures Taken(prefix, p, args, k) <==>
            Taken(prefix, p, args[..|args| - 1], k) || Takes(prefix, p, args, |args| - 1, k)
  {
    hide Fold, Given;
    var n := |args| - 1;
    TakesBefore(prefix, p, args, n);
    if i: nat :| Takes(prefix, p, args, i, k) {
      assert i < n ==> Takes(prefix, p, args[..n], i, k);
    }
    if i: nat :| Takes(prefix, p, args[..n], i, k) {
      assert Takes(prefix, p, args, i, k);
    }
  }

  // What the last argument adds to the names present before or after it.
  lemma LastNames(prefix: string, p: Progress, args: seq<string>, m: Progress, q: Progress, k: string)
    requires args != [] && Fold(prefix, p, args[..|args| - 1]) == Ok(m) && Fold(prefix, p, args) == Ok(q)
    ensures k in Keys(m.hosts) || k in Keys(q.hosts) <==>
            k in Keys(m.hosts) || Takes(prefix, p, args, |args| - 1, k) || GeneratedFrom(prefix, m.nextId, q.nextId, k)
    ensures m.nextId <= q.nextId <= m.nextId + 1
  {
    hide Step, Generated, Given, Fold, AddsHost, GeneratedFrom;
    var r := FoldLast(prefix, p, args, q);
    var c := StepChange(prefix, m, args[|args| - 1], q);
    if c.Removed? {
      DeleteKeys(m.hosts, c.name);
    }
    GeneratedOne(prefix, m.nextId, k);
  }

  lemma GeneratedOne(prefix: string, n: nat, k: string)
    ensures !GeneratedFrom(prefix, n, n, k)
    ensures GeneratedFrom(prefix, n, n + 1, k) <==> k == Generated(prefix, n)
  {
    hide Generated;
  }

  lemma GeneratedUpTo(prefix: string, lo: nat, mid: nat, hi: nat, k: string)
    requires lo <= mid <= hi
    ensures GeneratedFrom(prefix, lo, hi, k) <==> GeneratedFrom(prefix, lo, mid, k) || GeneratedFrom(prefix, mid, hi, k)
  {
    hide Generated;
  }

  // The names that were ever in the table are those copied, those a named
  // argument gave with effect, and those generated.
  lemma {:induction false} PresentNames(prefix: string, p: Progress, args: seq<string>, q: Progress, k: string)
    requires Fold(prefix, p, args) == Ok(q)
    ensures p.nextId <= q.nextId
    ensures k in EverPresent(prefix, p, args) <==>
            k in Keys(p.hosts) || Taken(prefix, p, args, k) || GeneratedFrom(prefix, p.nextId, q.nextId, k)
  {
    if args == [] {
      assert EverPresent(prefix, p, args) == ToSet(Keys(p.hosts));
    } else {
      hide Step, Takes, Taken, GeneratedFrom;
      var init := args[..|args| - 1];
      var m := Fold(prefix, p, init).value;
      PresentNames(prefix, p, init, m, k);
      assert EverPresent(prefix, p, args) == EverPresent(prefix, p, init) + ToSet(Keys(q.hosts));
      CurrentIsPresent(prefix, p, init, m);
      LastNames(prefix, p, args, m, q, k);
      TakenLast(prefix, p, args, k);
      GeneratedUpTo(prefix, p.nextId, m.nextId, q.nextId, k);
    }
  }

  lemma CurrentIsPresent(prefix: string, p: Progress, args: seq<string>, q: Progress)
    requires Fold(prefix, p, args) == Ok(q)
    ensures forall k :: k in Keys(q.hosts) ==> k in EverPresent(prefix, p, args)
  {
    hide Fold;
  }

  lemma {:induction false} IdsGrow(prefix: string, p: Progress, args: seq<string>, q: Progress)
    requires Fold(prefix, p, args) == Ok(q)
    ensures p.nextId <= q.nextId <= p.nextId + |args|
  {
    hide Step, Fold, Takes, GeneratedFrom;
    if args == [] {
      FoldNone(prefix, p);
    } else {
      var m := FoldLast(prefix, p, args, q);
      IdsGrow(prefix, p, args[..|args| - 1], m);
      LastNames(prefix, p, args, m, q, "");
    }
  }

  // The next generated name was in the table before exactly when it is the name
  // of a host the run starts from, or a named argument of the run has given it
  // with effect.
  lemma GeneratedIsFreshExactly(prefix: string, p: Progress, args: seq<string>, q: Progress)
    requires Fold(prefix, p, args) == Ok(q)
    ensures Generated(prefix, q.nextId) in EverPresent(prefix, p, args) <==>
              || Generated(prefix, q.nextId) in Keys(p.hosts)
              || exists i: nat :: Takes(prefix, p, args, i, Generated(prefix, q.nextId))
  {
    hide Step, Generated, Takes, Fold;
    var name := Generated(prefix, q.nextId);
    PresentNames(prefix, p, args, q, name);
    forall n: nat | p.nextId <= n < q.nextId
      ensures Generated(prefix, n) != name
    {
      if Generated(prefix, n) == name {
        GeneratedInjective(prefix, n, q.nextId);
      }
    }
  }

  // With a prefix without a dot no copied host has it, so it is new if no named
  // argument has it; then the new host becomes the last entry.
  lemma GeneratedNamesAreFresh(prefix: string, hosts: Table, args: seq<string>, q: Progress, arg: string, r: Progress)
    requires '.' !in prefix
    requires Fold(prefix, Start(hosts), args) == Ok(q)
    requires Step(prefix, q, arg) == Ok(r) && AddsHost(q.hosts, arg)
    requires Generated(prefix, q.nextId) !in NamesGiven(args)
    ensures Generated(prefix, q.nextId) !in EverPresent(prefix, Start(hosts), args)
    ensures r.hosts == q.hosts + [Entry(Generated(prefix, q.nextId), AddressOpts(arg))]
  {
    hide Step, Generated, NamesGiven, Takes, Fold, HighestId;
    var p, name := Start(hosts), Generated(prefix, q.nextId);
    forall i: nat | Takes(prefix, p, args, i, name)
      ensures false
    {
      TakesIsGiven(prefix, p, args, i, name);
    }
    IdsGrow(prefix, p, args, q);
    AboveHighest(prefix, hosts, q.nextId);
    GeneratedIsFreshExactly(prefix, p, args, q);
    CurrentIsPresent(prefix, p, args, q);
    var c := StepChange(prefix, q, arg, r);
  }

  // ----- runs without named arguments

  predicate NamesNone(args: seq<string>) {
    forall i :: 0 <= i < |args| ==> !NamesHost(args[i])
  }

  lemma NoNamesGiven(args: seq<string>)
    requires NamesNone(args)
    ensures NamesGiven(args) == {}
  {
    hide Split;
  }

  lemma NoneTakes(prefix: string, p: Progress, args: seq<string>)
    requires NamesNone(args)
    ensures forall i: nat, k :: !Takes(prefix, p, args, i, k)
  {
    hide Fold;
  }

  // None of the numbers from lo up to hi generates the name of a host.
  ghost predicate NoClash(prefix: string, lo: nat, hi: nat, t: Table) {
    forall n: nat :: lo <= n < hi ==> Generated(prefix, n) !in Keys(t)
  }

  // That cannot happen with a prefix without a dot.
  lemma DotFreeNeverClashes(prefix: string, hosts: Table, hi: nat)
    requires '.' !in prefix
    ensures NoClash(prefix, Start(hosts).nextId, hi, Copied(hosts))
  {
    hide Generated, HighestId, Copied;
    forall n: nat | Start(hosts).nextId <= n < hi
      ensures Generated(prefix, n) !in Keys(Copied(hosts))
    {
      AboveHighest(prefix, hosts, n);
    }
  }

  // The next generated name is then new unless it clashes.
  lemma NextIsNew(prefix: string, p: Progress, args: seq<string>, q: Progress)
    requires Fold(prefix, p, args) == Ok(q) && NamesNone(args)
    requires Generated(prefix, q.nextId) !in Keys(p.hosts)
    ensures Generated(prefix, q.nextId) !in Keys(q.hosts)
  {
    hide Generated, Takes, Fold;
    NoneTakes(prefix, p, args);
    GeneratedIsFreshExactly(prefix, p, args, q);
    CurrentIsPresent(prefix, p, args, q);
  }

  lemma {:induction false} FoldConcat(prefix: string, p: Progress, a: seq<string>, b: seq<string>)
    ensures Fold(prefix, p, a + b) == match Fold(prefix, p, a)
                                      case Err(e) => Err(e)
                                      case Ok(m) => Fold(prefix, m, b)
  {
    hide Step;
    if b == [] {
      assert a + b == a;
    } else {
      var init := b[..|b| - 1];
      FoldConcat(prefix, p, a, init);
      assert (a + b)[..|a + b| - 1] == a + init;
    }
  }

  lemma OneHostFindIp(name: string, ip: string, other: string)
    requires other != ip
    ensures FindIp([Entry(name, MakeOpts(ip, ip))], other) == Ok(None)
  {
    var t := [Entry(name, MakeOpts(ip, ip))];
    assert GetIp(t[0].value) == Ok(ip);
    assert FindIpFrom(t, other, 1) == Ok(None);
  }

  lemma FirstNamedHost(prefix: string, name: string, ip: string)
    requires name != "" && IsAlpha(name[0]) && ',' !in name && ',' !in ip
    ensures Step(prefix, Progress([], 1, None, None), name + "," + ip) ==
            Ok(Progress([Entry(name, MakeOpts(ip, ip))], 1, Some(name), Some((ip, ip))))
  {
    var named, p := name + "," + ip, Progress([], 1, None, None);
    assert "," == [','];
    SplitAfter(name, ',', ip);
    IndexOfFinds(ip, ',');
    assert Split(named, ',') == [name, ip];
    assert named[0] == name[0] && named[|name|] == ',';
    assert Keys(p.hosts) == [];
    var q := Progress([], 1, Some(name), Some((ip, ip)));
    assert ParseNamed(p, named) == Ok(q);
    assert FindIp(q.hosts, ip) == Ok(None) && Find(q.hosts, name) == 0;
    assert Put(q.hosts, name, MakeOpts(ip, ip)) == [Entry(name, MakeOpts(ip, ip))];
  }

  lemma SameNameGenerated(prefix: string, p: Progress, ip: string, other: string)
    requires IsAddress(other) && ',' !in other && other != ip && other != Generated(prefix, p.nextId)
    requires p.hosts == [Entry(Generated(prefix, p.nextId), MakeOpts(ip, ip))]
    ensures Step(prefix, p, other).Ok?
    ensures Step(prefix, p, other).value.hosts == [Entry(Generated(prefix, p.nextId), MakeOpts(other, other))]
  {
    var name := Generated(prefix, p.nextId);
    OneHostFindIp(name, ip, other);
    assert Keys(p.hosts) == [name];
    FindIs(p.hosts, name, 0);
  }

  // The condition on named arguments is needed: a named host that took the next
  // generated name is overwritten, and its address is lost.
  lemma GeneratedNameOverwritesNamedHost(prefix: string, ip: string, other: string)
    requires prefix != "" && IsAlpha(prefix[0]) && ',' !in prefix
    requires ',' !in ip && IsAddress(other) && ',' !in other && other != ip
    ensures Build(prefix, [], [Generated(prefix, 1) + "," + ip, other]) ==
            Ok([Entry(Generated(prefix, 1), MakeOpts(other, other))])
  {
    hide MakeOpts;
    var name := Generated(prefix, 1);
    var args := [name + "," + ip, other];
    assert name[0] == prefix[0] && ',' !in name by {
      assert forall i :: 0 <= i < |name| ==> name[i] == if i < |prefix| then prefix[i] else Decimal(1)[i - |prefix|];
    }
    FirstNamedHost(prefix, name, ip);
    hide Step, Generated;
    var p0, p1 := Start([]), Progress([Entry(name, MakeOpts(ip, ip))], 1, Some(name), Some((ip, ip)));
    assert args[..1] == [args[0]] && args[..1][..0] == [];
    assert Fold(prefix, p0, args[..0]) == Ok(p0);
    assert Fold(prefix, p0, args[..1]) == Ok(p1);
    SameNameGenerated(prefix, p1, ip, other);
  }
}
