/** Host ids and generated host names: what `get_host_id` reads back from the
    names `build_hostnames` prints. */
module HostNames {
  import opened Text

  // The start of the run of digits that ends at position n.
  function DigitsStart(s: string, n: nat): (i: nat)
    requires n <= |s|
    ensures i <= n
  {
    if n == 0 || !IsDigit(s[n - 1]) then n else DigitsStart(s, n - 1)
  }

  // The digits s ends in.
  function TrailingDigits(s: string): string {
    s[DigitsStart(s, |s|)..]
  }

  lemma {:induction false} DigitsStartFinds(s: string, n: nat)
    requires n <= |s|
    ensures var i := DigitsStart(s, n);
            (forall k :: i <= k < n ==> IsDigit(s[k])) && (i > 0 ==> !IsDigit(s[i - 1]))
  {
    if n > 0 && IsDigit(s[n - 1]) {
      DigitsStartFinds(s, n - 1);
    }
  }

  // The first dot-separated part of a host name, without one final newline:
  // `$` in the pattern \d+$ also matches just before it.
  function Stem(host: string): string {
    var short := host[..IndexOf(host, '.')];
    if short != "" && short[|short| - 1] == '\n' then short[..|short| - 1] else short
  }

  function HostId(host: string): Option<nat> {
    var digits := TrailingDigits(Stem(host));
    if digits == "" then None else (DigitsStartFinds(Stem(host), |Stem(host)|); Some(Value(digits)))
  }

  predicate Numbered(host: string) {
    HostId(host).Some?
  }

  function Generated(prefix: string, n: nat): string {
    prefix + Decimal(n)
  }

  lemma TrailingDigitsAppend(p: string, d: string)
    requires AllDigits(d)
    ensures AllDigits(TrailingDigits(p)) && TrailingDigits(p + d) == TrailingDigits(p) + d
  {
    var s := p + d;
    var i, j := DigitsStart(p, |p|), DigitsStart(s, |s|);
    DigitsStartFinds(p, |p|);
    DigitsStartFinds(s, |s|);
    assert forall k :: 0 <= k < |s| ==> s[k] == if k < |p| then p[k] else d[k - |p|];
    assert j <= i by {
      assert j > 0 ==> !IsDigit(s[j - 1]);
      assert forall k :: i <= k < |s| ==> IsDigit(s[k]);
    }
    assert i > 0 ==> !IsDigit(s[i - 1]);
    assert i == j;
    assert s[i..] == p[i..] + d;
  }

  // Parsing the id of a generated name gives back at least the number it was
  // printed from, and exactly that number unless the prefix ends in a digit.
  lemma GeneratedId(prefix: string, n: nat)
    requires '.' !in prefix
    ensures Numbered(Generated(prefix, n))
    ensures HostId(Generated(prefix, n)).value >= n
    ensures TrailingDigits(prefix) == "" ==> HostId(Generated(prefix, n)).value == n
  {
    var host, d := Generated(prefix, n), Decimal(n);
    assert forall i :: 0 <= i < |host| ==> host[i] == if i < |prefix| then prefix[i] else d[i - |prefix|];
    IndexOfIs(host, '.', |host|);
    assert host[..|host|] == host;
    assert host[|host| - 1] == d[|d| - 1];
    assert Stem(host) == host;
    TrailingDigitsAppend(prefix, d);
    ValueOfConcat(TrailingDigits(prefix), d);
    ValueOfDecimal(n);
    if TrailingDigits(prefix) == "" {
      assert TrailingDigits(prefix) + d == d;
    }
  }

  // The domain part of a host name does not matter.
  lemma DomainIsIgnored(host: string, domain: string)
    requires '.' !in host
    ensures HostId(host + "." + domain) == HostId(host)
  {
    var full := host + "." + domain;
    assert forall k :: 0 <= k < |host| ==> full[k] == host[k];
    IndexOfIs(full, '.', |host|);
    IndexOfIs(host, '.', |host|);
    assert full[..|host|] == host == host[..|host|];
  }

  lemma GeneratedInjective(prefix: string, m: nat, n: nat)
    requires Generated(prefix, m) == Generated(prefix, n)
    ensures m == n
  {
    var host := Generated(prefix, m);
    assert Decimal(m) == host[|prefix|..] == Decimal(n);
    DecimalInjective(m, n);
  }

  // A name with a dot-free first part that ends in neither a digit nor a
  // newline has no id.
  lemma NotNumbered(host: string)
    requires host != "" && IndexOf(host, '.') == |host|
    requires !IsDigit(host[|host| - 1]) && host[|host| - 1] != '\n'
    ensures !Numbered(host)
  {
    assert host[..|host|] == host;
    assert TrailingDigits(host) == "";
  }

  // A dotted prefix hides the number: the id no longer grows with it.
  lemma DottedPrefixHidesId(prefix: string, n: nat)
    requires '.' in prefix
    ensures HostId(Generated(prefix, n)) == HostId(prefix)
  {
    var host := Generated(prefix, n);
    var i := IndexOf(prefix, '.');
    IndexOfFinds(prefix, '.');
    assert forall k :: 0 <= k <= i ==> host[k] == prefix[k];
    IndexOfIs(host, '.', i);
    assert host[..i] == prefix[..i];
  }

  // So generated names have ids exactly when the prefix has no dot or an id.
  lemma GeneratedIsNumbered(prefix: string, n: nat)
    ensures Numbered(Generated(prefix, n)) <==> '.' !in prefix || Numbered(prefix)
  {
    hide HostId, Generated;
    if '.' in prefix {
      DottedPrefixHidesId(prefix, n);
    } else {
      GeneratedId(prefix, n);
    }
  }

  // A generated name is the prefix and the decimal numeral of the number, without
  // leading zeros.
  lemma GeneratedIsNumeral(prefix: string, n: nat)
    ensures prefix <= Generated(prefix, n)
    ensures Canonical(Generated(prefix, n)[|prefix|..]) && Value(Generated(prefix, n)[|prefix|..]) == n
  {
    assert Generated(prefix, n)[|prefix|..] == Decimal(n);
    DecimalIsCanonical(n);
    ValueOfDecimal(n);
  }

  lemma SomeGeneratedNames()
    ensures Generated("node", 1) == "node1" && Generated("node", 10) == "node10" && Generated("node", 208) == "node208"
  {
    assert Decimal(20) == "20";
  }

  // The id is the number denoted by the digits that end the part before the
  // first dot, not counting one final newline; without such digits there is none.
  lemma HostIdExactly(front: string, digits: string, newline: string, domain: string)
    requires '.' !in front && AllDigits(digits) && (front != "" ==> !('0' <= front[|front| - 1] <= '9'))
    requires newline == "" || newline == "\n"
    requires domain == "" || domain[0] == '.'
    requires digits == "" && newline == "" ==> front == "" || front[|front| - 1] != '\n'
    ensures HostId(front + digits + newline + domain) == if digits == "" then None else Some(Value(digits))
  {
    var stem := front + digits;
    StemIs(stem, newline, domain);
    assert front + digits + newline + domain == stem + newline + domain;
    assert TrailingDigits(front) == "";
    TrailingDigitsAppend(front, digits);
    assert "" + digits == digits;
  }

  lemma StemIs(stem: string, newline: string, domain: string)
    requires '.' !in stem && (newline == "" || newline == "\n") && (domain == "" || domain[0] == '.')
    requires newline == "" ==> stem == "" || stem[|stem| - 1] != '\n'
    ensures Stem(stem + newline + domain) == stem
  {
    var short := stem + newline;
    var host := short + domain;
    assert forall k :: 0 <= k < |short| ==> host[k] == short[k] != '.';
    IndexOfIs(host, '.', |short|);
    assert host[..|short|] == short;
    if newline == "\n" {
      assert short[|short| - 1] == '\n' && short[..|short| - 1] == stem;
    } else {
      assert short == stem;
    }
  }
}
