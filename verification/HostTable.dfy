/** The host table of the inventory builder and the command-line arguments that
    change it: `build_hostnames` as a fold over its arguments. */
module HostTable {
  import opened Text
  import opened OrderedDict
  import opened HostNames
  import AddressRanges

  type Opts = map<string, string>

  type Table = Dict<Opts>

  datatype Error =
    | MissingIp          // a host without an ip option was inspected
    | EmptyArgument
    | WrongFieldCount    // too many or too few comma-separated fields
    | UnboundVariable    // a bare name before any address was seen
    | HostNotFound       // delete_host_by_ip found no host with the ip
    | BadRange(cause: AddressRanges.RangeError)

  function MakeOpts(ip: string, accessIp: string): Opts {
    map["ansible_host" := accessIp, "ip" := ip, "access_ip" := accessIp]
  }

  // ----- looking hosts up by address

  function GetIp(opts: Opts): Result<string, Error> {
    if "ip" in opts then Ok(opts["ip"]) else Err(MissingIp)
  }

  // The first position from i on whose host has this ip; scanning stops with
  // an error at a host without an ip.
  function FindIpFrom(t: Table, ip: string, i: nat): (r: Result<Option<nat>, Error>)
    requires i <= |t|
    ensures r.Ok? && r.value.Some? ==> i <= r.value.value < |t|
    decreases |t| - i
  {
    if i == |t| then Ok(None) else
      match GetIp(t[i].value)
      case Err(e) => Err(e)
      case Ok(found) => if found == ip then Ok(Some(i)) else FindIpFrom(t, ip, i + 1)
  }

  function FindIp(t: Table, ip: string): (r: Result<Option<nat>, Error>)
    ensures r.Ok? && r.value.Some? ==> r.value.value < |t|
  {
    FindIpFrom(t, ip, 0)
  }

  function DeleteByIp(t: Table, ip: string): Table {
    match FindIp(t, ip)
    case Ok(Some(i)) => Delete(t, t[i].key)
    case _ => t
  }

  // ----- copying the existing hosts

  // The copy loop includes the first host without an id and stops there.
  function CopyEnd(hosts: Table, i: nat): (n: nat)
    requires i <= |hosts|
    ensures i <= n <= |hosts|
    decreases |hosts| - i
  {
    if i == |hosts| then i else if Numbered(hosts[i].key) then CopyEnd(hosts, i + 1) else i + 1
  }

  function Copied(hosts: Table): Table {
    hosts[..CopyEnd(hosts, 0)]
  }

  function HighestId(t: Table): nat {
    if t == [] then 0 else
      var rest := HighestId(t[..|t| - 1]);
      match HostId(t[|t| - 1].key)
      case Some(id) => if id > rest then id else rest
      case None => rest
  }

  // ----- one argument

  // The variables that survive from one argument to the next: the table, the
  // next id, and the last host name and addresses assigned.
  datatype Progress = Progress(hosts: Table, nextId: nat, name: Option<string>, addresses: Option<(string, string)>)

  function ParsePair(arg: string): Result<(string, string), Error> {
    if ',' !in arg then Ok((arg, arg)) else
      var fields := Split(arg, ',');
      if |fields| == 2 then Ok((fields[0], fields[1])) else Err(WrongFieldCount)
  }

  // A named argument: the last name and addresses are kept when it has no comma.
  function ParseNamed(p: Progress, arg: string): Result<Progress, Error> {
    if ',' !in arg then Ok(p) else
      var fields := Split(arg, ',');
      if |fields| == 3 then Ok(p.(name := Some(fields[0]), addresses := Some((fields[1], fields[2]))))
      else if |fields| == 2 then Ok(p.(name := Some(fields[0]), addresses := Some((fields[1], fields[1]))))
      else Err(WrongFieldCount)
  }

  function DeleteStep(p: Progress, target: string): Result<Progress, Error> {
    if target in Keys(p.hosts) then Ok(p.(hosts := Delete(p.hosts, target))) else
      match FindIp(p.hosts, target)
      case Err(e) => Err(e)
      case Ok(_) => Ok(p.(hosts := DeleteByIp(p.hosts, target)))
  }

  function AddressStep(prefix: string, p: Progress, arg: string): Result<Progress, Error> {
    match ParsePair(arg)
    case Err(e) => Err(e)
    case Ok(pair) =>
      var q := p.(addresses := Some(pair));
      if arg in Keys(q.hosts) then Ok(q) else
        match FindIp(q.hosts, pair.0)
        case Err(e) => Err(e)
        case Ok(Some(_)) => Ok(q)
        case Ok(None) =>
          Ok(q.(hosts := Put(q.hosts, Generated(prefix, q.nextId), MakeOpts(pair.0, pair.1)), nextId := q.nextId + 1))
  }

  function NameStep(p: Progress, arg: string): Result<Progress, Error> {
    match ParseNamed(p, arg)
    case Err(e) => Err(e)
    case Ok(q) =>
      if arg in Keys(q.hosts) then Ok(q)
      else if q.addresses.None? then Err(UnboundVariable)
      else
        match FindIp(q.hosts, q.addresses.value.0)
        case Err(e) => Err(e)
        case Ok(Some(_)) => Ok(q)
        case Ok(None) =>
          if q.name.None? then Err(UnboundVariable)
          else Ok(q.(hosts := Put(q.hosts, q.name.value, MakeOpts(q.addresses.value.0, q.addresses.value.1))))
  }

  predicate IsDeletion(arg: string) {
    arg != "" && arg[0] == '-'
  }

  predicate IsAddress(arg: string) {
    arg != "" && IsDigit(arg[0])
  }

  function Step(prefix: string, p: Progress, arg: string): Result<Progress, Error> {
    if arg == "" then Err(EmptyArgument)
    else if arg[0] == '-' then DeleteStep(p, arg[1..])
    else if IsDigit(arg[0]) then AddressStep(prefix, p, arg)
    else if IsAlpha(arg[0]) then NameStep(p, arg)
    else Ok(p)
  }

  // ----- all arguments

  function Fold(prefix: string, p: Progress, args: seq<string>): Result<Progress, Error> {
    if args == [] then Ok(p) else
      match Fold(prefix, p, args[..|args| - 1])
      case Err(e) => Err(e)
      case Ok(q) => Step(prefix, q, args[|args| - 1])
  }

  function Start(hosts: Table): Progress {
    Progress(Copied(hosts), HighestId(Copied(hosts)) + 1, None, None)
  }

  function Build(prefix: string, hosts: Table, args: seq<string>): Result<Table, Error> {
    match Fold(prefix, Start(hosts), args)
    case Err(e) => Err(e)
    case Ok(p) => Ok(p.hosts)
  }

  // ----- the loops

  method ExistsIp(t: Table, ip: string) returns (r: Result<bool, Error>)
    ensures r == match FindIp(t, ip)
                 case Err(e) => Err(e)
                 case Ok(found) => Ok(found.Some?)
  {
    for i := 0 to |t|
      invariant FindIp(t, ip) == FindIpFrom(t, ip, i)
    {
      var found := GetIp(t[i].value);
      if found.Err? {
        return Err(found.error);
      }
      if ip == found.value {
        return Ok(true);
      }
    }
    r := Ok(false);
  }

  method DeleteHostByIp(t: Table, ip: string) returns (r: Result<Table, Error>)
    ensures r == match FindIp(t, ip)
                 case Err(e) => Err(e)
                 case Ok(None) => Err(HostNotFound)
                 case Ok(Some(_)) => Ok(DeleteByIp(t, ip))
  {
    for i := 0 to |t|
      invariant FindIp(t, ip) == FindIpFrom(t, ip, i)
    {
      var current := GetIp(t[i].value);
      if current.Err? {
        return Err(current.error);
      }
      if ip == current.value {
        return Ok(Delete(t, t[i].key));
      }
    }
    r := Err(HostNotFound);
  }

  lemma HighestIdSnoc(t: Table, e: Entry<Opts>)
    ensures HighestId(t + [e]) == match HostId(e.key)
                                  case Some(id) => if id > HighestId(t) then id else HighestId(t)
                                  case None => HighestId(t)
  {
    assert (t + [e])[..|t + [e]| - 1] == t;
  }

  method CopyExisting(hosts: Table) returns (existing: Table, highest: nat)
    ensures existing == Copied(hosts) && highest == HighestId(existing)
  {
    hide HostId;
    existing, highest := [], 0;
    var i := 0;
    while i < |hosts|
      invariant i <= |hosts| && existing == hosts[..i] && highest == HighestId(existing)
      invariant CopyEnd(hosts, 0) == CopyEnd(hosts, i)
    {
      HighestIdSnoc(existing, hosts[i]);
      existing := existing + [hosts[i]];
      var id := HostId(hosts[i].key);
      if id.None? {
        return;
      }
      if id.value > highest {
        highest := id.value;
      }
      i := i + 1;
    }
  }

  lemma {:induction false} FoldFailsForGood(prefix: string, p: Progress, args: seq<string>, n: nat)
    requires n <= |args|
    ensures Fold(prefix, p, args[..n]).Err? ==> Fold(prefix, p, args) == Fold(prefix, p, args[..n])
  {
    if n == |args| {
      assert args[..n] == args;
    } else {
      FoldFailsForGood(prefix, p, args[..|args| - 1], n);
      assert args[..|args| - 1][..n] == args[..n];
    }
  }

  method ApplyDeletion(p: Progress, target: string) returns (r: Result<Progress, Error>)
    ensures r == DeleteStep(p, target)
  {
    if target in Keys(p.hosts) {
      return Ok(p.(hosts := Delete(p.hosts, target)));
    }
    var present := ExistsIp(p.hosts, target);
    if present.Err? {
      return Err(present.error);
    }
    if !present.value {
      return Ok(p);
    }
    var hosts := DeleteHostByIp(p.hosts, target);
    r := Ok(p.(hosts := hosts.value));
  }

  method ApplyAddress(prefix: string, p: Progress, host: string) returns (r: Result<Progress, Error>)
    ensures r == AddressStep(prefix, p, host)
  {
    var pair := ParsePair(host);
    if pair.Err? {
      return Err(pair.error);
    }
    var (ip, accessIp) := pair.value;
    var q := p.(addresses := Some((ip, accessIp)));
    if host in Keys(q.hosts) {
      return Ok(q);
    }
    var present := ExistsIp(q.hosts, ip);
    if present.Err? {
      return Err(present.error);
    }
    if present.value {
      return Ok(q);
    }
    r := Ok(q.(hosts := Put(q.hosts, Generated(prefix, q.nextId), MakeOpts(ip, accessIp)), nextId := q.nextId + 1));
  }

  method ApplyName(p: Progress, host: string) returns (r: Result<Progress, Error>)
    ensures r == NameStep(p, host)
  {
    var parsed := ParseNamed(p, host);
    if parsed.Err? {
      return parsed;
    }
    var q := parsed.value;
    if host in Keys(q.hosts) {
      return Ok(q);
    }
    if q.addresses.None? {
      return Err(UnboundVariable);
    }
    var (ip, accessIp) := q.addresses.value;
    var present := ExistsIp(q.hosts, ip);
    if present.Err? {
      return Err(present.error);
    }
    if present.value {
      return Ok(q);
    }
    if q.name.None? {
      return Err(UnboundVariable);
    }
    r := Ok(q.(hosts := Put(q.hosts, q.name.value, MakeOpts(ip, accessIp))));
  }

  method BuildHostnames(prefix: string, hosts: Table, changed: seq<string>) returns (r: Result<Table, Error>)
    ensures r == Build(prefix, hosts, changed)
  {
    hide DeleteStep, AddressStep, NameStep, HighestId, HostId;
    var existing, highest := CopyExisting(hosts);
    var p := Progress(existing, highest + 1, None, None);
    for i := 0 to |changed|
      invariant Fold(prefix, Start(hosts), changed[..i]) == Ok(p)
    {
      var host := changed[i];
      assert changed[..i + 1][..i] == changed[..i];
      FoldFailsForGood(prefix, Start(hosts), changed, i + 1);
      var next;
      if host == "" {
        next := Err(EmptyArgument);
      } else if host[0] == '-' {
        next := ApplyDeletion(p, host[1..]);
      } else if IsDigit(host[0]) {
        next := ApplyAddress(prefix, p, host);
      } else if IsAlpha(host[0]) {
        next := ApplyName(p, host);
      } else {
        next := Ok(p);
      }
      if next.Err? {
        return Err(next.error);
      }
      p := next.value;
    }
    assert changed[..|changed|] == changed;
    r := Ok(p.hosts);
  }
}
