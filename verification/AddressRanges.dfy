/** Expansion of address ranges: `range2ips` of the inventory builder, with the
    IPv4 dotted-quad notation it parses and prints. */
module AddressRanges {
  import opened Text

  datatype RangeError = NotTwoEnds | InvalidAddress

  const ADDRESS_SPACE: nat := 0x1_0000_0000

  // One octet: one to three digits, no leading zero, at most 255.
  function ParseOctet(s: string): Option<nat> {
    if Canonical(s) && |s| <= 3 && Value(s) <= 255 then Some(Value(s)) else None
  }

  // Four octets, most significant first.
  function Combine(parts: seq<string>): (r: Option<nat>)
    ensures r.Some? ==> r.value < ADDRESS_SPACE
  {
    if |parts| != 4 then None else
      match (ParseOctet(parts[0]), ParseOctet(parts[1]), ParseOctet(parts[2]), ParseOctet(parts[3]))
      case (Some(a), Some(b), Some(c), Some(d)) => Some(((a * 256 + b) * 256 + c) * 256 + d)
      case _ => None
  }

  function ParseAddress(s: string): (r: Option<nat>)
    ensures r.Some? ==> r.value < ADDRESS_SPACE
  {
    Combine(Split(s, '.'))
  }

  function Quads(n: nat): seq<string> {
    [Decimal(n / 256 / 256 / 256 % 256), Decimal(n / 256 / 256 % 256), Decimal(n / 256 % 256), Decimal(n % 256)]
  }

  function FormatAddress(n: nat): string
    requires n < ADDRESS_SPACE
  {
    Join(Quads(n), '.')
  }

  lemma {:induction false} DecimalLength(n: nat)
    requires n < 1000
    ensures |Decimal(n)| <= 3
  {
    if n >= 100 {
      assert |Decimal(n / 10 / 10)| == 1;
      assert |Decimal(n / 10)| == 2;
    }
  }

  lemma OctetRoundTrip(n: nat)
    requires n < 256
    ensures ParseOctet(Decimal(n)) == Some(n)
  {
    ValueOfDecimal(n);
    DecimalIsCanonical(n);
    DecimalLength(n);
  }

  lemma Recompose(n: nat)
    requires n < ADDRESS_SPACE
    ensures ((n / 256 / 256 / 256 % 256 * 256 + n / 256 / 256 % 256) * 256 + n / 256 % 256) * 256 + n % 256 == n
  {
    assert n / 256 / 256 / 256 < 256;
  }

  lemma CombineOfQuads(n: nat)
    requires n < ADDRESS_SPACE
    ensures Combine(Quads(n)) == Some(n)
  {
    OctetRoundTrip(n / 256 / 256 / 256 % 256);
    OctetRoundTrip(n / 256 / 256 % 256);
    OctetRoundTrip(n / 256 % 256);
    OctetRoundTrip(n % 256);
    Recompose(n);
  }

  lemma ParseOfFormat(n: nat)
    requires n < ADDRESS_SPACE
    ensures ParseAddress(FormatAddress(n)) == Some(n)
  {
    SplitOfJoin(Quads(n), '.');
    CombineOfQuads(n);
  }

  lemma Decompose(a: nat, b: nat, c: nat, d: nat)
    requires a < 256 && b < 256 && c < 256 && d < 256
    ensures var n := ((a * 256 + b) * 256 + c) * 256 + d;
            n < ADDRESS_SPACE && n % 256 == d && n / 256 % 256 == c &&
            n / 256 / 256 % 256 == b && n / 256 / 256 / 256 % 256 == a
  {
    var n := ((a * 256 + b) * 256 + c) * 256 + d;
    assert n / 256 == (a * 256 + b) * 256 + c;
    assert n / 256 / 256 == a * 256 + b;
    assert n / 256 / 256 / 256 == a;
  }

  lemma FormatOfParse(s: string)
    requires ParseAddress(s).Some?
    ensures FormatAddress(ParseAddress(s).value) == s
  {
    var parts := Split(s, '.');
    DecimalOfValue(parts[0]);
    DecimalOfValue(parts[1]);
    DecimalOfValue(parts[2]);
    DecimalOfValue(parts[3]);
    Decompose(Value(parts[0]), Value(parts[1]), Value(parts[2]), Value(parts[3]));
    assert Quads(ParseAddress(s).value) == parts;
    JoinOfSplit(s, '.');
  }

  // str.strip: ASCII whitespace at both ends.
  predicate IsSpace(c: char) {
    c == ' ' || '\t' <= c <= '\r' || 0x1c <= c as int <= 0x1f
  }

  function StripLeft(s: string): string {
    if s != "" && IsSpace(s[0]) then StripLeft(s[1..]) else s
  }

  function StripRight(s: string): string {
    if s != "" && IsSpace(s[|s| - 1]) then StripRight(s[..|s| - 1]) else s
  }

  function Strip(s: string): string {
    StripRight(StripLeft(s))
  }

  predicate IsRange(arg: string) {
    '-' in arg && arg[0] != '-' && !IsAlpha(arg[0])
  }

  // The addresses start, start + 1, ..., end - 1 in dotted-quad notation.
  function Block(start: nat, end: nat): seq<string>
    requires end <= ADDRESS_SPACE
  {
    seq(if start < end then end - start else 0, i requires 0 <= i < end - start => FormatAddress(start + i))
  }

  lemma EmptyBlock(start: nat, end: nat)
    requires start < ADDRESS_SPACE && end <= ADDRESS_SPACE
    ensures Block(start, start) == [] && (start >= end ==> Block(start, end) == [])
  {
    hide FormatAddress;
  }

  lemma BlockNext(start: nat, n: nat)
    requires start <= n < ADDRESS_SPACE
    ensures Block(start, n + 1) == Block(start, n) + [FormatAddress(n)]
  {
    hide FormatAddress;
  }

  type Expansion = Result<seq<string>, RangeError>

  function Expand(arg: string): Expansion {
    if !IsRange(arg) then Ok([arg]) else
      var ends := Split(Strip(arg), '-');
      if |ends| != 2 then Err(NotTwoEnds) else
        match (ParseAddress(ends[0]), ParseAddress(ends[1]))
        case (Some(a), Some(b)) => Ok(Block(a, b + 1))
        case _ => Err(InvalidAddress)
  }

  // Concatenation of two expansions; the first error wins.
  function Append(r: Expansion, t: Expansion): Expansion {
    if r.Err? then r else if t.Err? then t else Ok(r.value + t.value)
  }

  function ExpandAll(args: seq<string>): Expansion {
    if args == [] then Ok([]) else Append(ExpandAll(args[..|args| - 1]), Expand(args[|args| - 1]))
  }

  method ExpandRange(start: nat, end: nat) returns (r: seq<string>)
    requires start < ADDRESS_SPACE && end < ADDRESS_SPACE
    ensures r == Block(start, end + 1)
  {
    hide FormatAddress, Block;
    r := [];
    var n := start;
    EmptyBlock(start, end + 1);
    while n < end + 1
      invariant n == start || start <= n <= end + 1
      invariant r == Block(start, n) && (n > end ==> r == Block(start, end + 1))
    {
      BlockNext(start, n);
      r := r + [FormatAddress(n)];
      n := n + 1;
    }
  }

  method ExpandArgument(arg: string) returns (r: Expansion)
    ensures r == Expand(arg)
  {
    if '-' in arg && !(arg[0] == '-' || IsAlpha(arg[0])) {
      var ends := Split(Strip(arg), '-');
      if |ends| != 2 {
        return Err(NotTwoEnds);
      }
      var start, end := ParseAddress(ends[0]), ParseAddress(ends[1]);
      if start.None? || end.None? {
        return Err(InvalidAddress);
      }
      var block := ExpandRange(start.value, end.value);
      return Ok(block);
    }
    r := Ok([arg]);
  }

  method RangesToAddresses(args: seq<string>) returns (r: Expansion)
    ensures r == ExpandAll(args)
  {
    var reworked: seq<string> := [];
    for i := 0 to |args|
      invariant ExpandAll(args[..i]) == Ok(reworked)
    {
      assert args[..i + 1][..i] == args[..i];
      var part := ExpandArgument(args[i]);
      if part.Err? {
        FirstErrorWins(args, i + 1);
        return part;
      }
      reworked := reworked + part.value;
    }
    assert args[..|args|] == args;
    r := Ok(reworked);
  }

  lemma {:induction false} FirstErrorWins(args: seq<string>, n: nat)
    requires n <= |args|
    ensures ExpandAll(args[..n]).Err? ==> ExpandAll(args) == ExpandAll(args[..n])
  {
    if n == |args| {
      assert args[..n] == args;
    } else {
      FirstErrorWins(args[..|args| - 1], n);
      assert args[..|args| - 1][..n] == args[..n];
    }
  }

  lemma BlockContents(start: nat, end: nat)
    requires end <= ADDRESS_SPACE
    ensures forall i :: 0 <= i < |Block(start, end)| ==> ParseAddress(Block(start, end)[i]) == Some(start + i)
  {
    forall i | 0 <= i < |Block(start, end)|
      ensures ParseAddress(Block(start, end)[i]) == Some(start + i)
    {
      ParseOfFormat(start + i);
    }
  }

  lemma AddressCharacters(n: nat)
    requires n < ADDRESS_SPACE
    ensures var s := FormatAddress(n);
            s != "" && IsDigit(s[0]) && IsDigit(s[|s| - 1]) && '-' !in s && ',' !in s
  {
    JoinCharacters(Quads(n));
  }

  lemma {:induction false} JoinCharacters(parts: seq<string>)
    requires |parts| > 0 && forall i :: 0 <= i < |parts| ==> parts[i] != "" && AllDigits(parts[i])
    ensures var s := Join(parts, '.');
            s != "" && IsDigit(s[0]) && IsDigit(s[|s| - 1]) && '-' !in s && ',' !in s
  {
    if |parts| > 1 {
      JoinCharacters(parts[1..]);
    }
  }

  lemma SplitRange(from: string, to: string)
    requires from != "" && IsDigit(from[0]) && '-' !in from
    requires to != "" && IsDigit(to[|to| - 1]) && '-' !in to
    ensures var arg := from + "-" + to;
            IsRange(arg) && Split(Strip(arg), '-') == [from, to]
  {
    var arg := from + "-" + to;
    assert arg[|from|] == '-';
    assert arg[0] == from[0] && arg[|arg| - 1] == to[|to| - 1];
    assert Strip(arg) == arg;
    assert "-" == ['-'];
    SplitAfter(from, '-', to);
    IndexOfFinds(to, '-');
  }

  // A range `a-b` of well-formed addresses stands for exactly the addresses
  // a, a + 1, ..., b, each written in the notation ip_address reads back.
  lemma RangeExpansion(a: nat, b: nat)
    requires a < ADDRESS_SPACE && b < ADDRESS_SPACE
    ensures var r := Expand(FormatAddress(a) + "-" + FormatAddress(b));
            r.Ok? && |r.value| == (if a <= b then b - a + 1 else 0) &&
            (forall i :: 0 <= i < |r.value| ==> ParseAddress(r.value[i]) == Some(a + i)) &&
            (forall i, j :: 0 <= i < j < |r.value| ==> r.value[i] != r.value[j])
  {
    AddressCharacters(a);
    AddressCharacters(b);
    SplitRange(FormatAddress(a), FormatAddress(b));
    ParseOfFormat(a);
    ParseOfFormat(b);
    BlockContents(a, b + 1);
    var r := Block(a, b + 1);
    forall i, j | 0 <= i < j < |r|
      ensures r[i] != r[j]
    {
      assert ParseAddress(r[i]) == Some(a + i) && ParseAddress(r[j]) == Some(a + j);
    }
  }

  lemma AppendAssociative(r: Expansion, t: Expansion, u: Expansion)
    ensures Append(Append(r, t), u) == Append(r, Append(t, u))
  {
    if r.Ok? && t.Ok? && u.Ok? {
      assert r.value + t.value + u.value == r.value + (t.value + u.value);
    }
  }

  // Every argument is expanded on its own and in place.
  lemma {:induction false} ExpansionIsPointwise(front: seq<string>, back: seq<string>)
    ensures ExpandAll(front + back) == Append(ExpandAll(front), ExpandAll(back))
  {
    if back == [] {
      assert front + back == front;
      if ExpandAll(front).Ok? {
        assert ExpandAll(front).value + [] == ExpandAll(front).value;
      }
    } else {
      var init := back[..|back| - 1];
      assert (front + back)[..|front + back| - 1] == front + init;
      assert (front + back)[|front + back| - 1] == back[|back| - 1];
      ExpansionIsPointwise(front, init);
      AppendAssociative(ExpandAll(front), ExpandAll(init), Expand(back[|back| - 1]));
    }
  }

  // A single argument that is not a range passes through.
  lemma OneArgument(arg: string)
    ensures ExpandAll([arg]) == Expand(arg)
    ensures !IsRange(arg) ==> ExpandAll([arg]) == Ok([arg])
  {
    var none: seq<string> := [arg][..0];
    assert none == [] && ExpandAll(none) == Ok([]);
    if Expand(arg).Ok? {
      assert [] + Expand(arg).value == Expand(arg).value;
    }
  }

  // ----- told by the characters

  // The most significant octet comes first.
  lemma OctetsInOrder(a: nat, b: nat, c: nat, d: nat)
    requires a < 256 && b < 256 && c < 256 && d < 256
    ensures ((a * 256 + b) * 256 + c) * 256 + d < ADDRESS_SPACE
    ensures FormatAddress(((a * 256 + b) * 256 + c) * 256 + d) ==
            Decimal(a) + "." + Decimal(b) + "." + Decimal(c) + "." + Decimal(d)
  {
    hide Decimal, Join;
    Decompose(a, b, c, d);
    JoinFour(Decimal(a), Decimal(b), Decimal(c), Decimal(d));
  }

  lemma JoinFour(a: string, b: string, c: string, d: string)
    ensures Join([a, b, c, d], '.') == a + "." + b + "." + c + "." + d
  {
    hide Join;
    assert "." == ['.'];
    JoinCons(a, [b, c, d], '.');
    JoinCons(b, [c, d], '.');
    JoinCons(c, [d], '.');
    JoinOne(d);
    assert [a] + [b, c, d] == [a, b, c, d] && [b] + [c, d] == [b, c, d] && [c] + [d] == [c, d];
    assert a + "." + (b + "." + (c + "." + d)) == a + "." + b + "." + c + "." + d;
  }

  lemma JoinOne(d: string)
    ensures Join([d], '.') == d
  {
  }

  predicate AllSpace(s: string) {
    forall i :: 0 <= i < |s| ==> IsSpace(s[i])
  }

  lemma {:induction false} StripLeftOf(left: string, s: string)
    requires AllSpace(left) && (s == "" || !IsSpace(s[0]))
    ensures StripLeft(left + s) == s
  {
    if left == "" {
      assert left + s == s;
    } else {
      StripLeftOf(left[1..], s);
      assert (left + s)[1..] == left[1..] + s;
    }
  }

  lemma {:induction false} StripRightOf(s: string, right: string)
    requires AllSpace(right) && (s == "" || !IsSpace(s[|s| - 1]))
    ensures StripRight(s + right) == s
  {
    if right == "" {
      assert s + right == s;
    } else {
      StripRightOf(s, right[..|right| - 1]);
      assert (s + right)[..|s + right| - 1] == s + right[..|right| - 1];
    }
  }

  lemma {:induction false} StripLeftLeaves(s: string) returns (left: string)
    ensures AllSpace(left) && s == left + StripLeft(s)
  {
    if s != "" && IsSpace(s[0]) {
      var more := StripLeftLeaves(s[1..]);
      left := [s[0]] + more;
    } else {
      left := "";
    }
  }

  lemma {:induction false} StripRightLeaves(s: string) returns (right: string)
    ensures AllSpace(right) && s == StripRight(s) + right
  {
    if s != "" && IsSpace(s[|s| - 1]) {
      var more := StripRightLeaves(s[..|s| - 1]);
      right := more + [s[|s| - 1]];
    } else {
      right := "";
    }
  }

  // Two addresses with a dash between them, in any whitespace.
  ghost predicate IsAddressRange(arg: string) {
    exists left, right, a: nat, b: nat ::
      a < ADDRESS_SPACE && b < ADDRESS_SPACE && AllSpace(left) && AllSpace(right) &&
      arg == left + (FormatAddress(a) + "-" + FormatAddress(b)) + right
  }

  lemma RangeIsTrimmed(left: string, a: nat, b: nat, right: string)
    requires a < ADDRESS_SPACE && b < ADDRESS_SPACE && AllSpace(left) && AllSpace(right)
    ensures Expand(left + (FormatAddress(a) + "-" + FormatAddress(b)) + right) == Ok(Block(a, b + 1))
  {
    hide FormatAddress, Strip, Block, Split, ParseAddress;
    var core := FormatAddress(a) + "-" + FormatAddress(b);
    AddressCharacters(a);
    AddressCharacters(b);
    SplitRange(FormatAddress(a), FormatAddress(b));
    ParseOfFormat(a);
    ParseOfFormat(b);
    assert core[0] == FormatAddress(a)[0] && core[|core| - 1] == FormatAddress(b)[|FormatAddress(b)| - 1];
    assert core[|FormatAddress(a)|] == '-';
    StripIs(left, core, right);
    StripIs("", core, "");
    assert "" + core + "" == core;
    PaddedIsRange(left, core, right);
  }

  lemma StripIs(left: string, core: string, right: string)
    requires AllSpace(left) && AllSpace(right) && core != "" && !IsSpace(core[0]) && !IsSpace(core[|core| - 1])
    ensures Strip(left + core + right) == core
  {
    hide StripLeft, StripRight, IsSpace;
    assert left + core + right == left + (core + right);
    StripLeftOf(left, core + right);
    StripRightOf(core, right);
  }

  lemma PaddedIsRange(left: string, core: string, right: string)
    requires AllSpace(left) && core != "" && IsDigit(core[0]) && '-' in core
    ensures IsRange(left + core + right)
  {
    var arg := left + core + right;
    var i :| 0 <= i < |core| && core[i] == '-';
    assert arg[|left| + i] == '-';
    assert arg[0] == if left == "" then core[0] else left[0];
  }

  lemma ExpandedIsRange(arg: string)
    requires IsRange(arg) && Expand(arg).Ok?
    ensures IsAddressRange(arg)
  {
    hide FormatAddress, ParseAddress, StripLeft, StripRight, Split, Block;
    var ends := Split(Strip(arg), '-');
    JoinOfSplit(Strip(arg), '-');
    assert ends == [ends[0], ends[1]];
    assert ends[1..] == [ends[1]] && "-" == ['-'];
    var left := StripLeftLeaves(arg);
    var right := StripRightLeaves(StripLeft(arg));
    FormatOfParse(ends[0]);
    FormatOfParse(ends[1]);
    var a, b := ParseAddress(ends[0]).value, ParseAddress(ends[1]).value;
    assert Strip(arg) == FormatAddress(a) + "-" + FormatAddress(b);
    assert arg == left + (FormatAddress(a) + "-" + FormatAddress(b)) + right;
  }

  // The argument has a dash and begins with neither a dash nor a letter.
  predicate AsksForRange(arg: string) {
    '-' in arg && arg[0] != '-' && !('a' <= arg[0] <= 'z') && !('A' <= arg[0] <= 'Z')
  }

  // An argument that asks for a range is expanded exactly if it is two addresses
  // with a dash between them, in any whitespace; every other one passes through.
  lemma ExpandedExactly(arg: string)
    ensures ExpandAll([arg]).Ok? <==> (AsksForRange(arg) ==> IsAddressRange(arg))
    ensures !AsksForRange(arg) ==> ExpandAll([arg]) == Ok([arg])
  {
    hide FormatAddress, ParseAddress, Strip, Split, Block;
    OneArgument(arg);
    if AsksForRange(arg) {
      if Expand(arg).Ok? {
        ExpandedIsRange(arg);
      }
      if IsAddressRange(arg) {
        var left, right, a: nat, b: nat :|
          a < ADDRESS_SPACE && b < ADDRESS_SPACE && AllSpace(left) && AllSpace(right) &&
          arg == left + (FormatAddress(a) + "-" + FormatAddress(b)) + right;
        RangeIsTrimmed(left, a, b, right);
      }
    }
  }

  lemma TightRange(a: nat, b: nat)
    requires a < ADDRESS_SPACE && b < ADDRESS_SPACE
    ensures IsAddressRange(FormatAddress(a) + "-" + FormatAddress(b))
  {
    hide FormatAddress;
    var core := FormatAddress(a) + "-" + FormatAddress(b);
    assert AllSpace("") && core == "" + core + "";
  }

  // An argument without whitespace around it, in particular: one that begins with
  // a digit, has a dash and ends in no whitespace.
  lemma RangeWithoutSpace(arg: string)
    requires arg != "" && '0' <= arg[0] <= '9' && '-' in arg && !IsSpace(arg[|arg| - 1])
    ensures ExpandAll([arg]).Ok? <==>
            exists a: nat, b: nat ::
              a < ADDRESS_SPACE && b < ADDRESS_SPACE && arg == FormatAddress(a) + "-" + FormatAddress(b)
  {
    hide FormatAddress;
    ExpandedExactly(arg);
    if IsAddressRange(arg) {
      var left, right, a: nat, b: nat :|
        a < ADDRESS_SPACE && b < ADDRESS_SPACE && AllSpace(left) && AllSpace(right) &&
        arg == left + (FormatAddress(a) + "-" + FormatAddress(b)) + right;
      assert left == "" && right == "";
      assert arg == FormatAddress(a) + "-" + FormatAddress(b);
    }
    if a: nat, b: nat :| a < ADDRESS_SPACE && b < ADDRESS_SPACE && arg == FormatAddress(a) + "-" + FormatAddress(b) {
      TightRange(a, b);
    }
  }

  // A list of arguments is expanded exactly if each of them is.
  lemma {:induction false} ListExpandedExactly(args: seq<string>)
    ensures ExpandAll(args).Ok? <==>
            forall i :: 0 <= i < |args| ==> AsksForRange(args[i]) ==> IsAddressRange(args[i])
  {
    hide Expand, AsksForRange, IsAddressRange;
    if args != [] {
      var init, last := args[..|args| - 1], args[|args| - 1];
      ListExpandedExactly(init);
      ExpandedExactly(last);
      OneArgument(last);
      assert args == init + [last];
    }
  }

  lemma OneAddress(d: nat)
    requires d < 10
    ensures var n := ((10 * 256 + 90) * 256 + 0) * 256 + d;
            n < ADDRESS_SPACE && FormatAddress(n) == "10.90.0." + [DigitChar(d)] && '-' !in FormatAddress(n)
  {
    AddressCharacters(((10 * 256 + 90) * 256 + 0) * 256 + d);
    hide FormatAddress, Decimal;
    OctetsInOrder(10, 90, 0, d);
    SomeDecimals(d);
    assert "10" + "." + "90" + "." + "0" + "." == "10.90.0.";
  }

  lemma SomeDecimals(d: nat)
    requires d < 10
    ensures Decimal(10) == "10" && Decimal(90) == "90" && Decimal(0) == "0" && Decimal(d) == [DigitChar(d)]
  {
  }

  // The ranges of the unit tests.
  lemma SomeRanges()
    ensures ExpandAll(["10.90.0.2", "10.90.0.4-10.90.0.6", "10.90.0.8"]) ==
            Ok(["10.90.0.2", "10.90.0.4", "10.90.0.5", "10.90.0.6", "10.90.0.8"])
    ensures ExpandAll(["10.90.0.4-a.9b.c.e"]).Err?
  {
    hide FormatAddress, Expand, Block;
    var one, range, other := "10.90.0.2", "10.90.0.4-10.90.0.6", "10.90.0.8";
    SomeRange();
    OneAddress(2);
    OneAddress(8);
    assert "10.90.0." + [DigitChar(2)] == one && "10.90.0." + [DigitChar(8)] == other;
    ExpandedExactly(one);
    ExpandedExactly(other);
    hide ExpandAll, AsksForRange;
    ExpansionIsPointwise([one], [range]);
    assert ExpandAll([one] + [range]) == Ok([one] + ["10.90.0.4", "10.90.0.5", "10.90.0.6"]);
    ExpansionIsPointwise([one] + [range], [other]);
    assert [one] + ["10.90.0.4", "10.90.0.5", "10.90.0.6"] + [other] ==
           ["10.90.0.2", "10.90.0.4", "10.90.0.5", "10.90.0.6", "10.90.0.8"];
    assert [one] + [range] + [other] == [one, range, other];
    BadRange();
  }

  lemma SomeRange()
    ensures ExpandAll(["10.90.0.4-10.90.0.6"]) == Ok(["10.90.0.4", "10.90.0.5", "10.90.0.6"])
  {
    hide FormatAddress, Expand, Block;
    var n := ((10 * 256 + 90) * 256 + 0) * 256;
    OneAddress(4);
    OneAddress(5);
    OneAddress(6);
    assert "10.90.0." + [DigitChar(4)] == "10.90.0.4" && "10.90.0." + [DigitChar(5)] == "10.90.0.5";
    assert "10.90.0." + [DigitChar(6)] == "10.90.0.6";
    RangeIsTrimmed("", n + 4, n + 6, "");
    assert "" + ("10.90.0.4" + "-" + "10.90.0.6") + "" == "10.90.0.4-10.90.0.6";
    EmptyBlock(n + 4, n + 4);
    BlockNext(n + 4, n + 4);
    BlockNext(n + 4, n + 5);
    BlockNext(n + 4, n + 6);
    OneArgument("10.90.0.4-10.90.0.6");
    assert [] + ["10.90.0.4"] + ["10.90.0.5"] + ["10.90.0.6"] == ["10.90.0.4", "10.90.0.5", "10.90.0.6"];
  }

  lemma BadRange()
    ensures ExpandAll(["10.90.0.4-a.9b.c.e"]).Err?
  {
    hide FormatAddress, Expand;
    var arg := "10.90.0.4-a.9b.c.e";
    assert arg[9] == '-';
    RangeWithoutSpace(arg);
    forall a: nat, b: nat | a < ADDRESS_SPACE && b < ADDRESS_SPACE
      ensures arg != FormatAddress(a) + "-" + FormatAddress(b)
    {
      AddressCharacters(b);
      var s := FormatAddress(a) + "-" + FormatAddress(b);
      assert IsDigit(s[|s| - 1]);
    }
  }
}
