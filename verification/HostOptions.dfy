/** Which options a host has after a run: its own, or those the last argument
    has written under its name. */
module HostOptions {
  import opened Text
  import opened OrderedDict
  import HostNames
  import opened HostTable
  import opened HostTableChanges
  import opened HostArguments

  // The entry an argument writes: that of the host it names, or of the one it adds.
  function Written(prefix: string, p: Progress, arg: string): Option<Entry<Opts>> {
    match Given(p, arg)
    case Some(pair) => Some(Entry(pair.0, pair.1))
    case None =>
      if AddsHost(p.hosts, arg) then Some(Entry(HostNames.Generated(prefix, p.nextId), AddressOpts(arg))) else None
  }

  lemma AddsExactly(t: Table, arg: string)
    ensures AddsHost(t, arg) <==>
              BeginsWithDigit(arg) && arg !in Keys(t) &&
              exists ip, access :: PairFields(arg, ip, access) && IpAbsent(t, ip)
  {
    hide ParsePair, PairFields, IpAbsent;
    PairOrError(arg);
    if ip, access :| PairFields(arg, ip, access) {
      AddressOptions(arg, ip, access);
      PairExactly(arg, ip, access);
      forall ip', access' | PairFields(arg, ip', access')
        ensures ip' == ip && access' == access
      {
        PairExactly(arg, ip', access');
      }
    }
  }

  // What an argument writes, told by its characters: an address under the next
  // generated name, a named argument under its name, a bare name under the last
  // one, each with exactly these three options, if no host has the ip and the
  // whole argument is no host's name.
  lemma WrittenExactly(prefix: string, p: Progress, arg: string, e: Entry<Opts>)
    ensures Written(prefix, p, arg) == Some(e) <==>
              arg !in Keys(p.hosts) &&
              exists ip, access ::
                && IpAbsent(p.hosts, ip)
                && e.value == map["ansible_host" := access, "ip" := ip, "access_ip" := access]
                && ((BeginsWithDigit(arg) && PairFields(arg, ip, access) && e.key == prefix + Decimal(p.nextId)) ||
                    (BeginsWithLetter(arg) && ',' in arg && NamedFields(arg, e.key, ip, access)) ||
                    (BeginsWithLetter(arg) && ',' !in arg &&
                     p.name == Some(e.key) && p.addresses == Some((ip, access))))
  {
    hide Given, AddsHost, PairFields, NamedFields, IpAbsent, AddressOpts;
    GivenExactly(p, arg, e.key, e.value);
    AddsExactly(p.hosts, arg);
    assert Given(p, arg).Some? ==> !AddsHost(p.hosts, arg) by { GivenAddsNone(p, arg); }
    forall ip, access | PairFields(arg, ip, access)
      ensures AddressOpts(arg) == map["ansible_host" := access, "ip" := ip, "access_ip" := access]
    {
      AddressOptions(arg, ip, access);
    }
    if Given(p, arg).Some? {
      GivenIsNamed(p, arg);
    }
  }

  lemma GivenAddsNone(p: Progress, arg: string)
    ensures Given(p, arg).Some? ==> !AddsHost(p.hosts, arg)
  {
  }

  lemma GivenIsNamed(p: Progress, arg: string)
    requires Given(p, arg).Some?
    ensures BeginsWithLetter(arg)
  {
  }

  // The i-th argument of the run writes the entry of k.
  predicate Writes(prefix: string, p: Progress, args: seq<string>, i: nat, k: string) {
    i < |args| &&
    match Fold(prefix, p, args[..i])
    case Ok(m) => Written(prefix, m, args[i]).Some? && Written(prefix, m, args[i]).value.key == k
    case Err(_) => false
  }

  ghost predicate EverWritten(prefix: string, p: Progress, args: seq<string>, k: string) {
    exists i: nat :: Writes(prefix, p, args, i, k)
  }

  // It is the last one to do so.
  predicate WritesLast(prefix: string, p: Progress, args: seq<string>, i: nat, k: string) {
    Writes(prefix, p, args, i, k) && forall j: nat :: i < j < |args| ==> !Writes(prefix, p, args, j, k)
  }

  // The options the i-th argument of the run writes.
  function OptsWritten(prefix: string, p: Progress, args: seq<string>, i: nat): Opts
    requires i < |args|
  {
    match Fold(prefix, p, args[..i])
    case Err(_) => map[]
    case Ok(m) =>
      match Written(prefix, m, args[i])
      case None => map[]
      case Some(e) => e.value
  }

  // What one argument does to the entry of a host that is there after it.
  lemma EntryAfterStep(prefix: string, m: Progress, arg: string, q: Progress, k: string)
    requires Step(prefix, m, arg) == Ok(q) && Unique(Keys(m.hosts)) && k in Keys(q.hosts)
    ensures match Written(prefix, m, arg)
            case Some(e) =>
              if e.key == k then e in q.hosts
              else k in Keys(m.hosts) && forall e :: e in m.hosts && e.key == k ==> e in q.hosts
            case None => k in Keys(m.hosts) && forall e :: e in m.hosts && e.key == k ==> e in q.hosts
  {
    hide Step, HostNames.Generated, Given, AddsHost, Put, Delete;
    var c := StepChange(prefix, m, arg, q);
    match c
    case Same =>
    case Removed(name) =>
      DeleteKeys(m.hosts, name);
      DeleteMembers(m.hosts, name);
    case Allocated => PutMembers(m.hosts, HostNames.Generated(prefix, m.nextId), AddressOpts(arg));
    case Assigned(name, opts) => PutMembers(m.hosts, name, opts);
  }

  lemma WritesBefore(prefix: string, p: Progress, args: seq<string>, n: nat)
    requires n <= |args|
    ensures forall i: nat, k :: i < n ==> (Writes(prefix, p, args[..n], i, k) <==> Writes(prefix, p, args, i, k))
  {
    hide Written, Fold;
    forall i: nat, k | i < n
      ensures Writes(prefix, p, args[..n], i, k) <==> Writes(prefix, p, args, i, k)
    {
      assert args[..n][..i] == args[..i] && args[..n][i] == args[i];
    }
  }

  lemma WrittenBefore(prefix: string, p: Progress, args: seq<string>, k: string)
    requires args != [] && EverWritten(prefix, p, args[..|args| - 1], k)
    ensures EverWritten(prefix, p, args, k)
  {
    hide Fold, Written;
    var n := |args| - 1;
    WritesBefore(prefix, p, args, n);
    var i: nat :| Writes(prefix, p, args[..n], i, k);
    assert Writes(prefix, p, args, i, k);
  }

  lemma WritesAtEnd(prefix: string, p: Progress, args: seq<string>, m: Progress, k: string)
    requires args != [] && Fold(prefix, p, args[..|args| - 1]) == Ok(m)
    ensures var n := |args| - 1;
            Writes(prefix, p, args, n, k) <==>
              Written(prefix, m, args[n]).Some? && Written(prefix, m, args[n]).value.key == k
    ensures Writes(prefix, p, args, |args| - 1, k) ==>
              OptsWritten(prefix, p, args, |args| - 1) == Written(prefix, m, args[|args| - 1]).value.value
    ensures !Writes(prefix, p, args, |args| - 1, k) ==>
              forall i: nat :: WritesLast(prefix, p, args, i, k) ==>
                i < |args| - 1 && WritesLast(prefix, p, args[..|args| - 1], i, k) &&
                OptsWritten(prefix, p, args, i) == OptsWritten(prefix, p, args[..|args| - 1], i)
  {
    hide Fold, Written;
    var n := |args| - 1;
    WritesBefore(prefix, p, args, n);
    hide Writes;
    forall i: nat | !Writes(prefix, p, args, n, k) && WritesLast(prefix, p, args, i, k)
      ensures i < n && WritesLast(prefix, p, args[..n], i, k)
      ensures OptsWritten(prefix, p, args, i) == OptsWritten(prefix, p, args[..n], i)
    {
      assert i < |args| by { WritesInRange(prefix, p, args, i, k); }
      assert args[..n][..i] == args[..i] && args[..n][i] == args[i];
    }
  }

  lemma WritesInRange(prefix: string, p: Progress, args: seq<string>, i: nat, k: string)
    requires Writes(prefix, p, args, i, k)
    ensures i < |args|
  {
  }

  // The entry of an old host in the resulting table, for any prefix and any
  // argument list.
  lemma {:induction false} EntryAfterRun(prefix: string, p: Progress, args: seq<string>, q: Progress, e: Entry<Opts>)
    requires Unique(Keys(p.hosts)) && Fold(prefix, p, args) == Ok(q) && e in p.hosts && e.key in Keys(q.hosts)
    ensures !EverWritten(prefix, p, args, e.key) ==> e in q.hosts
    ensures forall i: nat :: WritesLast(prefix, p, args, i, e.key) ==>
              i < |args| && Entry(e.key, OptsWritten(prefix, p, args, i)) in q.hosts
  {
    if args != [] {
      hide Step, Fold, Written, Writes, WritesLast, OptsWritten, EverWritten;
      var init, arg := args[..|args| - 1], args[|args| - 1];
      var m := FoldLast(prefix, p, args, q);
      UniqueFold(prefix, p, init);
      EntryAfterStep(prefix, m, arg, q, e.key);
      WritesAtEnd(prefix, p, args, m, e.key);
      if Writes(prefix, p, args, |init|, e.key) {
        WrittenAt(prefix, p, args, |init|, e.key);
        forall i: nat | WritesLast(prefix, p, args, i, e.key)
          ensures i == |init|
        {
          LastIsLast(prefix, p, args, i, |init|, e.key);
        }
      } else {
        EntryAfterRun(prefix, p, init, m, e);
        forall i: nat | WritesLast(prefix, p, args, i, e.key)
          ensures i < |args| && Entry(e.key, OptsWritten(prefix, p, args, i)) in q.hosts
        {
          assert Entry(e.key, OptsWritten(prefix, p, init, i)) in m.hosts;
        }
        if EverWritten(prefix, p, init, e.key) {
          WrittenBefore(prefix, p, args, e.key);
        }
      }
    } else {
      NoneWritten(prefix, p, e.key);
      FoldNone(prefix, p);
    }
  }

  lemma NoneWritten(prefix: string, p: Progress, k: string)
    ensures forall i: nat :: !WritesLast(prefix, p, [], i, k)
  {
  }

  lemma WrittenAt(prefix: string, p: Progress, args: seq<string>, i: nat, k: string)
    requires Writes(prefix, p, args, i, k)
    ensures EverWritten(prefix, p, args, k)
  {
  }

  lemma LastIsLast(prefix: string, p: Progress, args: seq<string>, i: nat, j: nat, k: string)
    requires WritesLast(prefix, p, args, i, k) && Writes(prefix, p, args, j, k)
    ensures j <= i < |args|
  {
    hide Fold, Written;
  }

  lemma SomeWritesLast(prefix: string, p: Progress, args: seq<string>, i: nat, k: string) returns (last: nat)
    requires Writes(prefix, p, args, i, k)
    ensures WritesLast(prefix, p, args, last, k)
    decreases |args| - i
  {
    hide Fold, Written;
    if j: nat :| i < j < |args| && Writes(prefix, p, args, j, k) {
      last := SomeWritesLast(prefix, p, args, j, k);
    } else {
      last := i;
    }
  }

  // A host that is there before and after the run has other options afterwards
  // exactly when the last argument that writes under its name gives others.
  lemma OptionsLostExactly(prefix: string, p: Progress, args: seq<string>, q: Progress, e: Entry<Opts>)
    requires Unique(Keys(p.hosts)) && Fold(prefix, p, args) == Ok(q) && e in p.hosts && e.key in Keys(q.hosts)
    ensures e !in q.hosts <==>
            exists i: nat :: WritesLast(prefix, p, args, i, e.key) && i < |args| &&
                             OptsWritten(prefix, p, args, i) != e.value
  {
    hide Fold, Writes, WritesLast, OptsWritten;
    EntryAfterRun(prefix, p, args, q, e);
    UniqueFold(prefix, p, args);
    if i: nat :| Writes(prefix, p, args, i, e.key) {
      var last := SomeWritesLast(prefix, p, args, i, e.key);
      KeyOfMember(q.hosts, Entry(e.key, OptsWritten(prefix, p, args, last)));
    }
    forall i: nat | WritesLast(prefix, p, args, i, e.key)
      ensures EverWritten(prefix, p, args, e.key)
    {
      LastWrites(prefix, p, args, i, e.key);
    }
    if i: nat :| WritesLast(prefix, p, args, i, e.key) && i < |args| && OptsWritten(prefix, p, args, i) != e.value {
      KeyOfMember(q.hosts, Entry(e.key, OptsWritten(prefix, p, args, i)));
    }
  }

  lemma LastWrites(prefix: string, p: Progress, args: seq<string>, i: nat, k: string)
    requires WritesLast(prefix, p, args, i, k)
    ensures Writes(prefix, p, args, i, k)
  {
  }

  // With a prefix without a dot only named arguments write under an old name.
  lemma OnlyNamedArguments(prefix: string, hosts: Table, args: seq<string>, i: nat, k: string)
    requires '.' !in prefix && k in Keys(Copied(hosts))
    ensures Writes(prefix, Start(hosts), args, i, k) <==> Takes(prefix, Start(hosts), args, i, k)
  {
    hide Fold, Given, HostNames.Generated, HighestId, Copied;
    if i < |args| && Fold(prefix, Start(hosts), args[..i]).Ok? {
      var m := Fold(prefix, Start(hosts), args[..i]).value;
      IdsGrow(prefix, Start(hosts), args[..i], m);
      AboveHighest(prefix, hosts, m.nextId);
    }
  }

  // ----- one named argument

  // The name can be given by a named argument.
  predicate CanBeNamed(name: string) {
    name != "" && IsAlpha(name[0]) && ',' !in name
  }

  lemma HostIsNamed(prefix: string, p: Progress, name: string, ip: string)
    requires CanBeNamed(name) && ',' !in ip && name + "," + ip !in Keys(p.hosts) && IpAbsent(p.hosts, ip)
    ensures Step(prefix, p, name + "," + ip) ==
            Ok(p.(hosts := Put(p.hosts, name, MakeOpts(ip, ip)), name := Some(name), addresses := Some((ip, ip))))
  {
    hide Split, FindIp, MakeOpts, Put, IpAbsent, ParseNamed;
    ArgumentFields(p, name, ip, ip);
    FindIpIs(p.hosts, ip);
    assert (name + "," + ip)[0] == name[0];
  }

  // For instance: naming a host of the inventory with an ip no host has writes
  // over its options, and its old ip is lost.
  lemma NamingAgainOverwrites(prefix: string, hosts: Table, x: nat, ip: string)
    requires Unique(Keys(hosts)) && Copied(hosts) == hosts && x < |hosts|
    requires CanBeNamed(hosts[x].key) && ',' !in ip
    requires hosts[x].key + "," + ip !in Keys(hosts) && IpAbsent(hosts, ip)
    ensures Build(prefix, hosts, [hosts[x].key + "," + ip]) ==
            Ok(hosts[x := Entry(hosts[x].key, MakeOpts(ip, ip))])
    ensures hosts[x] !in Build(prefix, hosts, [hosts[x].key + "," + ip]).value
  {
    hide Step, Fold, Copied, HighestId, CanBeNamed;
    var name := hosts[x].key;
    HostIsNamed(prefix, Start(hosts), name, ip);
    FoldOfOne(prefix, Start(hosts), name + "," + ip);
    UniqueFind(hosts, x);
    PutMembers(hosts, name, MakeOpts(ip, ip));
    assert hosts[x].value["ip"] != ip;
  }
}
