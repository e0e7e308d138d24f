/** Reading flattened attributes back by prefix: `_parse_prefix`, `parse_list`,
    `parse_dict` and `parse_attr_list`. */
module AttributeReading {
  import opened Text
  import opened OrderedDict
  import opened AttributeFlattening
  import opened AttributeKeys

  // The entry without the prefix and the separator, if its key is these two and
  // a rest other than the count mark.
  function Match(e: Entry<Json>, prefix: string, sep: char): Dict<Json> {
    var i := IndexOf(e.key, sep);
    if i < |e.key| && e.key[..i] == prefix && e.key[i + 1..] != "#" then [Entry(e.key[i + 1..], e.value)] else []
  }

  function Matching(source: Dict<Json>, prefix: string, sep: char): Dict<Json> {
    if source == [] then [] else
      Matching(source[..|source| - 1], prefix, sep) + Match(source[|source| - 1], prefix, sep)
  }

  function Values(es: Dict<Json>): seq<Json> {
    seq(|es|, i requires 0 <= i < |es| => es[i].value)
  }

  function ParseList(source: Dict<Json>, prefix: string, sep: char): seq<Json> {
    Values(Matching(source, prefix, sep))
  }

  function ParseDict(source: Dict<Json>, prefix: string, sep: char): Dict<Json> {
    Collapse(Matching(source, prefix, sep))
  }

  // One entry joins the group named before the separator; without a separator
  // the split raises.
  function Group(groups: Dict<Dict<Json>>, e: Entry<Json>, sep: char): Option<Dict<Dict<Json>>> {
    var i := IndexOf(e.key, sep);
    if i == |e.key| then None else
      var group := match Lookup(groups, e.key[..i]) case Some(g) => g case None => [];
      Some(Put(groups, e.key[..i], Put(group, e.key[i + 1..], e.value)))
  }

  function Grouped(es: Dict<Json>, sep: char): Option<Dict<Dict<Json>>> {
    if es == [] then Some([]) else
      match Grouped(es[..|es| - 1], sep)
      case None => None
      case Some(groups) => Group(groups, es[|es| - 1], sep)
  }

  function GroupValues(groups: Dict<Dict<Json>>): seq<Dict<Json>> {
    seq(|groups|, i requires 0 <= i < |groups| => groups[i].value)
  }

  function ParseAttrList(source: Dict<Json>, prefix: string, sep: char): Option<seq<Dict<Json>>> {
    match Grouped(Matching(source, prefix, sep), sep)
    case None => None
    case Some(groups) => Some(GroupValues(groups))
  }

  // ----- the loops

  method ReadPrefix(source: Dict<Json>, prefix: string, sep: char) returns (found: Dict<Json>)
    ensures found == Matching(source, prefix, sep)
  {
    found := [];
    for n := 0 to |source|
      invariant found == Matching(source[..n], prefix, sep)
    {
      assert source[..n + 1][..n] == source[..n];
      var key := source[n].key;
      var i := IndexOf(key, sep);
      if i == |key| {
        continue;
      }
      var current, rest := key[..i], key[i + 1..];
      if current != prefix || rest == "#" {
        continue;
      }
      found := found + [Entry(rest, source[n].value)];
    }
    assert source[..|source|] == source;
  }

  lemma {:induction false} GroupingFailsForGood(es: Dict<Json>, sep: char, n: nat)
    requires n <= |es| && Grouped(es[..n], sep).None?
    ensures Grouped(es, sep).None?
  {
    if n == |es| {
      assert es[..n] == es;
    } else {
      assert es[..|es| - 1][..n] == es[..n];
      GroupingFailsForGood(es[..|es| - 1], sep, n);
    }
  }

  method AddToGroup(attrs: Dict<Dict<Json>>, e: Entry<Json>, sep: char) returns (r: Option<Dict<Dict<Json>>>)
    ensures r == Group(attrs, e, sep)
  {
    var i := IndexOf(e.key, sep);
    if i == |e.key| {
      return None;
    }
    var group: Dict<Json> := [];
    var known := Lookup(attrs, e.key[..i]);
    if known.Some? {
      group := known.value;
    }
    r := Some(Put(attrs, e.key[..i], Put(group, e.key[i + 1..], e.value)));
  }

  method ReadAttrList(source: Dict<Json>, prefix: string, sep: char) returns (r: Option<seq<Dict<Json>>>)
    ensures r == ParseAttrList(source, prefix, sep)
  {
    hide Group, Matching;
    var es := ReadPrefix(source, prefix, sep);
    var attrs: Dict<Dict<Json>> := [];
    for n := 0 to |es|
      invariant Grouped(es[..n], sep) == Some(attrs)
    {
      assert es[..n + 1][..n] == es[..n];
      var next := AddToGroup(attrs, es[n], sep);
      if next.None? {
        GroupingFailsForGood(es, sep, n + 1);
        return None;
      }
      attrs := next.value;
    }
    assert es[..|es|] == es;
    r := Some(GroupValues(attrs));
  }

  // ----- reading a collapsed dictionary

  // The rest of a key with this first part.
  function RestUnder(prefix: string, sep: char): string -> Option<string> {
    (key: string) =>
      var i := IndexOf(key, sep);
      if i < |key| && key[..i] == prefix then Some(key[i + 1..]) else None
  }

  // The rest, unless it is the count mark.
  function RestRead(prefix: string, sep: char): string -> Option<string> {
    (key: string) =>
      match RestUnder(prefix, sep)(key)
      case Some(rest) => if rest == "#" then None else Some(rest)
      case None => None
  }

  lemma RestsAreInjective(prefix: string, sep: char)
    ensures Injective(RestUnder(prefix, sep)) && Injective(RestRead(prefix, sep))
  {
    forall a, b | RestUnder(prefix, sep)(a).Some? && RestUnder(prefix, sep)(a) == RestUnder(prefix, sep)(b)
      ensures a == b
    {
      IndexOfFinds(a, sep);
      IndexOfFinds(b, sep);
      var i := |prefix|;
      assert a == a[..i] + [a[i]] + a[i + 1..] && b == b[..i] + [b[i]] + b[i + 1..];
    }
  }

  lemma MatchIsPicked(e: Entry<Json>, prefix: string, sep: char)
    ensures Match(e, prefix, sep) == match RestRead(prefix, sep)(e.key)
                                     case Some(rest) => [Entry(rest, e.value)]
                                     case None => []
  {
    var i := IndexOf(e.key, sep);
    if i < |e.key| && e.key[..i] == prefix {
      var rest := e.key[i + 1..];
      assert RestUnder(prefix, sep)(e.key) == Some(rest);
      assert RestRead(prefix, sep)(e.key) == if rest == "#" then None else Some(rest);
    } else {
      assert RestUnder(prefix, sep)(e.key) == None;
      assert RestRead(prefix, sep)(e.key) == None;
    }
  }

  lemma {:induction false} MatchingIsPicked(es: Dict<Json>, prefix: string, sep: char)
    ensures Matching(es, prefix, sep) == Picked(es, RestRead(prefix, sep))
  {
    if es != [] {
      hide Match, RestRead;
      MatchingIsPicked(es[..|es| - 1], prefix, sep);
      MatchIsPicked(es[|es| - 1], prefix, sep);
    }
  }

  // Reading by prefix what was written one entry after the other is writing what
  // is read by prefix.
  lemma MatchingOfCollapsed(es: Dict<Json>, prefix: string, sep: char)
    ensures Matching(Collapse(es), prefix, sep) == Collapse(Matching(es, prefix, sep))
  {
    hide Matching, Picked, PutAll, Injective;
    MatchingIsPicked(es, prefix, sep);
    MatchingIsPicked(Collapse(es), prefix, sep);
    RestsAreInjective(prefix, sep);
    PickedPutAll(es, RestRead(prefix, sep));
  }

  // The part of a key before the separator.
  function Part(key: string, sep: char): string {
    key[..IndexOf(key, sep)]
  }

  function Parts(keys: seq<string>, sep: char): seq<string> {
    seq(|keys|, i requires 0 <= i < |keys| => Part(keys[i], sep))
  }

  predicate AllSeparated(keys: seq<string>, sep: char) {
    forall i :: 0 <= i < |keys| ==> sep in keys[i]
  }

  lemma {:induction false} PartsOfDistinct(keys: seq<string>, sep: char)
    ensures AddAll([], Parts(AddAll([], keys), sep)) == AddAll([], Parts(keys, sep))
  {
    if keys != [] {
      hide AddAll, Part;
      var init, last := keys[..|keys| - 1], keys[|keys| - 1];
      PartsOfDistinct(init, sep);
      var before := AddAll([], init);
      AddAllSnoc(init, last);
      AddAllMembers([], init);
      assert keys == init + [last];
      AddAllSnoc(Parts(init, sep), Part(last, sep));
      assert Parts(keys, sep) == Parts(init, sep) + [Part(last, sep)];
      if last in init {
        var i :| 0 <= i < |init| && init[i] == last;
        assert Parts(init, sep)[i] == Part(last, sep);
        AddAllMembers([], Parts(init, sep));
      } else {
        AddAllSnoc(Parts(before, sep), Part(last, sep));
        assert Parts(before + [last], sep) == Parts(before, sep) + [Part(last, sep)];
      }
    }
  }

  lemma AddAllSnoc(ms: seq<string>, m: string)
    ensures AddAll([], ms + [m]) == Add(AddAll([], ms), m)
  {
    assert (ms + [m])[..|ms|] == ms;
  }

  // The entries of one group, in the order they are written.
  function Under(es: Dict<Json>, h: string, sep: char): Dict<Json> {
    Picked(es, RestUnder(h, sep))
  }

  lemma UnderSnoc(es: Dict<Json>, e: Entry<Json>, h: string, sep: char)
    requires IndexOf(e.key, sep) < |e.key|
    ensures Under(es + [e], h, sep) ==
            if h == Part(e.key, sep) then Under(es, h, sep) + [Entry(e.key[IndexOf(e.key, sep) + 1..], e.value)]
            else Under(es, h, sep)
  {
    hide Picked;
    IndexOfFinds(e.key, sep);
    PickedSnoc(es, e, RestUnder(h, sep));
  }

  lemma {:induction false} NothingUnder(es: Dict<Json>, h: string, sep: char)
    requires AllSeparated(Keys(es), sep) && h !in Parts(Keys(es), sep)
    ensures Under(es, h, sep) == []
  {
    if es != [] {
      var init, last := es[..|es| - 1], es[|es| - 1];
      assert Keys(es) == Keys(init) + [last.key] && es == init + [last];
      assert Parts(Keys(es), sep) == Parts(Keys(init), sep) + [Part(last.key, sep)];
      assert Keys(es)[|init|] == last.key;
      hide Part, Under;
      NothingUnder(init, h, sep);
      IndexOfFinds(last.key, sep);
      UnderSnoc(init, last, h, sep);
    }
  }

  ghost predicate GroupsAre(groups: Dict<Dict<Json>>, es: Dict<Json>, sep: char) {
    && Keys(groups) == AddAll([], Parts(Keys(es), sep))
    && forall h :: h in Keys(groups) ==> Lookup(groups, h) == Some(Collapse(Under(es, h, sep)))
  }

  // What is stored for the first part of a key so far.
  lemma StoredGroup(groups: Dict<Dict<Json>>, es: Dict<Json>, h: string, sep: char)
    requires AllSeparated(Keys(es), sep) && GroupsAre(groups, es, sep)
    ensures (match Lookup(groups, h) case Some(g) => g case None => []) == Collapse(Under(es, h, sep))
  {
    hide Under, PutAll, AddAll, Lookup;
    AddAllMembers([], Parts(Keys(es), sep));
    if h !in Keys(groups) {
      NothingUnder(es, h, sep);
      PutAllNone<Json>([]);
      NotFound(groups, h);
    }
  }

  lemma GroupIs(groups: Dict<Dict<Json>>, es: Dict<Json>, e: Entry<Json>, sep: char)
    requires AllSeparated(Keys(es), sep) && GroupsAre(groups, es, sep)
    ensures Group(groups, e, sep).Some? <==> sep in e.key
    ensures sep in e.key ==> GroupsAre(Group(groups, e, sep).value, es + [e], sep)
  {
    hide AllSeparated, Under, PutAll, AddAll, Put, Lookup, Parts;
    IndexOfFinds(e.key, sep);
    if sep in e.key {
      var i, h0 := IndexOf(e.key, sep), Part(e.key, sep);
      var group := match Lookup(groups, h0) case Some(g) => g case None => [];
      var r := Put(groups, h0, Put(group, e.key[i + 1..], e.value));
      GroupKeys(groups, es, e, sep);
      forall h | h in Keys(r)
        ensures Lookup(r, h) == Some(Collapse(Under(es + [e], h, sep)))
      {
        GroupLookup(groups, es, e, h, sep);
      }
    }
  }

  lemma GroupLookup(groups: Dict<Dict<Json>>, es: Dict<Json>, e: Entry<Json>, h: string, sep: char)
    requires AllSeparated(Keys(es), sep) && GroupsAre(groups, es, sep) && IndexOf(e.key, sep) < |e.key|
    requires h in Keys(groups) || h == Part(e.key, sep)
    ensures Lookup(Group(groups, e, sep).value, h) == Some(Collapse(Under(es + [e], h, sep)))
  {
    hide AllSeparated, Under, PutAll, AddAll, Put, Lookup, Parts;
    var h0, last := Part(e.key, sep), Entry(e.key[IndexOf(e.key, sep) + 1..], e.value);
    var group := match Lookup(groups, h0) case Some(g) => g case None => [];
    StoredGroup(groups, es, h0, sep);
    LookupPut(groups, h0, Put(group, last.key, last.value), h);
    UnderSnoc(es, e, h, sep);
    PutAllSnoc([], Under(es, h0, sep), last);
  }

  lemma GroupKeys(groups: Dict<Dict<Json>>, es: Dict<Json>, e: Entry<Json>, sep: char)
    requires Keys(groups) == AddAll([], Parts(Keys(es), sep))
    ensures AddAll([], Parts(Keys(es + [e]), sep)) == Add(Keys(groups), Part(e.key, sep))
  {
    hide AddAll, Part;
    assert Keys(es + [e]) == Keys(es) + [e.key];
    assert Parts(Keys(es + [e]), sep) == Parts(Keys(es), sep) + [Part(e.key, sep)];
    AddAllSnoc(Parts(Keys(es), sep), Part(e.key, sep));
  }

  lemma NotFound<V>(d: Dict<V>, k: string)
    requires k !in Keys(d)
    ensures Lookup(d, k) == None
  {
  }

  // The groups: one per first part, in order of first appearance, each written
  // from the entries under it.
  lemma {:induction false} GroupedIs(es: Dict<Json>, sep: char)
    ensures match Grouped(es, sep)
            case None => !AllSeparated(Keys(es), sep)
            case Some(groups) => AllSeparated(Keys(es), sep) && GroupsAre(groups, es, sep)
  {
    hide Group, GroupsAre, AllSeparated, Grouped, Parts;
    if es == [] {
      NoGroups(sep);
    } else {
      var init, last := es[..|es| - 1], es[|es| - 1];
      GroupedIs(init, sep);
      GroupedLast(init, last, sep);
      assert es == init + [last] && Keys(es) == Keys(init) + [last.key];
      SeparatedSnoc(Keys(init), last.key, sep);
      match Grouped(init, sep)
      case None =>
      case Some(groups) => GroupIs(groups, init, last, sep);
    }
  }

  lemma NoGroups(sep: char)
    ensures Grouped([], sep) == Some([]) && GroupsAre([], [], sep) && AllSeparated(Keys<Json>([]), sep)
  {
    assert Keys<Dict<Json>>([]) == [] && Parts(Keys<Json>([]), sep) == [];
  }

  lemma GroupedLast(init: Dict<Json>, last: Entry<Json>, sep: char)
    ensures Grouped(init + [last], sep) ==
            match Grouped(init, sep)
            case None => None
            case Some(groups) => Group(groups, last, sep)
  {
    hide Group;
    assert (init + [last])[..|init|] == init;
  }

  lemma SeparatedSnoc(keys: seq<string>, k: string, sep: char)
    ensures AllSeparated(keys + [k], sep) <==> AllSeparated(keys, sep) && sep in k
  {
    assert (keys + [k])[|keys|] == k;
    assert forall i :: 0 <= i < |keys| ==> (keys + [k])[i] == keys[i];
  }

  // Grouping what was written one entry after the other gives the same groups.
  lemma GroupedOfCollapsed(es: Dict<Json>, sep: char)
    ensures Grouped(Collapse(es), sep) == Grouped(es, sep)
  {
    hide Grouped, PutAll, AddAll, Picked, Lookup;
    var d := Collapse(es);
    GroupedIs(es, sep);
    GroupedIs(d, sep);
    PutAllKeys([], es);
    AddAllMembers([], Keys(es));
    PartsOfDistinct(Keys(es), sep);
    assert Keys(d) == AddAll([], Keys(es)) by { assert Keys<Json>([]) == []; }
    assert AllSeparated(Keys(d), sep) <==> AllSeparated(Keys(es), sep) by { SameSeparated(Keys(d), Keys(es), sep); }
    if Grouped(es, sep).Some? {
      var left, right := Grouped(d, sep).value, Grouped(es, sep).value;
      AddAllMembers([], Parts(Keys(es), sep));
      forall h | h in Keys(left)
        ensures Lookup(left, h) == Lookup(right, h)
      {
        RestsAreInjective(h, sep);
        PickedPutAll(es, RestUnder(h, sep));
        WriteTwice(Under(es, h, sep));
      }
      SameDict(left, right);
    }
  }

  lemma SameSeparated(a: seq<string>, b: seq<string>, sep: char)
    requires forall k :: k in a <==> k in b
    ensures AllSeparated(a, sep) <==> AllSeparated(b, sep)
  {
    assert AllSeparated(a, sep) <==> forall k :: k in a ==> sep in k;
    assert AllSeparated(b, sep) <==> forall k :: k in b ==> sep in k;
  }

  // ----- matching finds exactly one attribute

  lemma {:induction false} MatchingConcat(a: Dict<Json>, b: Dict<Json>, prefix: string, sep: char)
    ensures Matching(a + b, prefix, sep) == Matching(a, prefix, sep) + Matching(b, prefix, sep)
  {
    hide Match;
    if b == [] {
      assert a + b == a;
    } else {
      MatchingConcat(a, b[..|b| - 1], prefix, sep);
      assert (a + b)[..|a + b| - 1] == a + b[..|b| - 1];
    }
  }

  lemma {:induction false} NothingMatches(es: Dict<Json>, prefix: string)
    requires forall i :: 0 <= i < |es| ==> Head(es[i].key) != prefix
    ensures Matching(es, prefix, '.') == []
  {
    if es != [] {
      NothingMatches(es[..|es| - 1], prefix);
    }
  }

  // The name can be read: it has no dot, and no other attribute's name begins
  // with it as its first part.
  predicate Readable(attrs: Dict<Value>, x: nat)
    requires x < |attrs|
  {
    '.' !in attrs[x].key && forall i :: 0 <= i < |attrs| && i != x ==> Head(attrs[i].key) != attrs[x].key
  }

  lemma ValueOutside(h: string, v: Value, k: string)
    requires Head(h) != k
    ensures Matching(EmitValue(h, v), k, '.') == []
  {
    hide EmitValue, Inner, Head;
    ValueIsInner(h, v);
    forall i | 0 <= i < |EmitValue(h, v)|
      ensures Head(EmitValue(h, v)[i].key) != k
    {
      if !v.Scalar? {
        HeadOfLonger(h, Inner(v)[i].key);
      }
    }
    NothingMatches(EmitValue(h, v), k);
  }

  lemma HeadOfLonger(h: string, rest: string)
    ensures Head(h + "." + rest) == Head(h)
  {
    var key, i := h + "." + rest, IndexOf(h, '.');
    IndexOfFinds(h, '.');
    assert forall k :: 0 <= k < |h| ==> key[k] == h[k];
    assert key[|h|] == '.';
    IndexOfIs(key, '.', i);
    assert key[..i] == h[..i];
  }

  lemma {:induction false} NothingRead(attrs: Dict<Value>, k: string)
    requires forall i :: 0 <= i < |attrs| ==> Head(attrs[i].key) != k
    ensures Matching(EmitAttrs("", attrs), k, '.') == []
  {
    if attrs != [] {
      hide EmitValue, Head, Matching;
      var init, last := attrs[..|attrs| - 1], attrs[|attrs| - 1];
      NothingRead(init, k);
      assert "" + last.key == last.key;
      ValueOutside(last.key, last.value, k);
      MatchingConcat(EmitAttrs("", init), EmitValue(last.key, last.value), k, '.');
    }
  }

  // The entries that are not a list's count.
  function Unmarked(es: Dict<Json>): Dict<Json> {
    if es == [] then [] else
      Unmarked(es[..|es| - 1]) + (if es[|es| - 1].key == "#" then [] else [es[|es| - 1]])
  }

  lemma {:induction false} PrefixedMatches(es: Dict<Json>, prefix: string)
    requires '.' !in prefix
    ensures Matching(Prefixed(prefix + ".", es), prefix, '.') == Unmarked(es)
  {
    if es != [] {
      var init, last := es[..|es| - 1], es[|es| - 1];
      PrefixedMatches(init, prefix);
      HeadOf(prefix, last.key);
      var all := Prefixed(prefix + ".", es);
      assert all[..|all| - 1] == Prefixed(prefix + ".", init);
      assert all[|all| - 1].key == prefix + "." + last.key;
    }
  }

  lemma {:induction false} UnmarkedAll(es: Dict<Json>)
    requires forall i :: 0 <= i < |es| ==> es[i].key != "#"
    ensures Unmarked(es) == es
  {
    if es != [] {
      UnmarkedAll(es[..|es| - 1]);
    }
  }

  // Reading a name finds what its value was flattened to, without the count.
  lemma {:induction false} MatchingFlat(attrs: Dict<Value>, x: nat)
    requires x < |attrs| && Readable(attrs, x)
    ensures Matching(EmitAttrs("", attrs), attrs[x].key, '.') == Unmarked(Inner(attrs[x].value))
  {
    hide EmitValue, Inner, Head, Matching;
    var init, last, k := attrs[..|attrs| - 1], attrs[|attrs| - 1], attrs[x].key;
    assert "" + last.key == last.key;
    MatchingConcat(EmitAttrs("", init), EmitValue(last.key, last.value), k, '.');
    if x < |attrs| - 1 {
      MatchingFlat(init, x);
      ValueOutside(last.key, last.value, k);
    } else {
      NothingRead(init, k);
      ValueMatches(k, last.value);
    }
  }

  // The same for the flattened dictionary, in which later entries may have been
  // written over earlier ones.
  lemma ReadingFlat(attrs: Dict<Value>, x: nat)
    requires x < |attrs| && Readable(attrs, x)
    ensures Matching(Collapse(EmitAttrs("", attrs)), attrs[x].key, '.') == Collapse(Unmarked(Inner(attrs[x].value)))
  {
    hide EmitAttrs, Inner, Matching, PutAll, Unmarked;
    MatchingOfCollapsed(EmitAttrs("", attrs), attrs[x].key, '.');
    MatchingFlat(attrs, x);
  }

  lemma ValueMatches(k: string, v: Value)
    requires '.' !in k
    ensures Matching(EmitValue(k, v), k, '.') == Unmarked(Inner(v))
  {
    hide EmitValue, EmitItems;
    ValueIsInner(k, v);
    if v.Scalar? {
      ScalarNeverMatches(k, v.json);
    } else {
      PrefixedMatches(Inner(v), k);
    }
  }

  lemma ScalarNeverMatches(k: string, json: Json)
    requires '.' !in k
    ensures Matching([Entry(k, json)], k, '.') == []
  {
    IndexOfIs(k, '.', |k|);
    assert [Entry(k, json)][..0] == [];
  }

  // ----- string lists

  lemma UnmarkedItems(items: seq<Item>)
    ensures Unmarked(Inner(Items(items))) == EmitItems("", items)
  {
    hide EmitItems, Head;
    var all := Inner(Items(items));
    ItemsHeads(items);
    HeadOf("#", "");
    forall j | 0 <= j < |EmitItems("", items)|
      ensures EmitItems("", items)[j].key != "#"
    {
      PositionFacts(Head(EmitItems("", items)[j].key), |items|);
    }
    UnmarkedAll(EmitItems("", items));
    if items != [] {
      UnmarkedConcat([Entry("#", Number(|items|))], EmitItems("", items));
      assert [Entry("#", Number(|items|))][..0] == [];
      assert Unmarked([Entry("#", Number(|items|))]) == [];
    } else {
      assert all == EmitItems("", items);
    }
  }

  lemma UnmarkedSnoc(es: Dict<Json>, e: Entry<Json>)
    ensures Unmarked(es + [e]) == Unmarked(es) + (if e.key == "#" then [] else [e])
  {
    assert (es + [e])[..|es|] == es;
  }

  lemma {:induction false} UnmarkedConcat(a: Dict<Json>, b: Dict<Json>)
    ensures Unmarked(a + b) == Unmarked(a) + Unmarked(b)
  {
    if b == [] {
      assert a + b == a;
    } else {
      hide Unmarked;
      var init, last := b[..|b| - 1], b[|b| - 1];
      UnmarkedConcat(a, init);
      assert b == init + [last] && a + b == a + init + [last];
      UnmarkedSnoc(a + init, last);
      UnmarkedSnoc(init, last);
    }
  }

  lemma {:induction false} LinesEmitted(items: seq<Item>)
    requires forall i :: 0 <= i < |items| ==> items[i].Line?
    ensures |EmitItems("", items)| == |items|
    ensures forall i :: 0 <= i < |items| ==> EmitItems("", items)[i].value == String(items[i].text)
  {
    if items != [] {
      LinesEmitted(items[..|items| - 1]);
    }
  }

  // parse_list gives back a flattened list of strings, in order and with its
  // duplicates, whatever random numbers were drawn for its keys and whatever the
  // other attributes are.
  lemma StringListRoundTrip(attrs: Dict<Value>, x: nat)
    requires x < |attrs| && Readable(attrs, x) && attrs[x].value.Items?
    requires forall i :: 0 <= i < |attrs[x].value.items| ==> attrs[x].value.items[i].Line?
    ensures var items, converted := attrs[x].value.items, Conversion(Nested(attrs), "");
            && (converted.Some? <==> CountAttrs(attrs).others == 0)
            && (converted.Some? ==>
                  var r := ParseList(converted.value, attrs[x].key, '.');
                  |r| == |items| && forall i :: 0 <= i < |items| ==> r[i] == String(items[i].text))
  {
    ConvertedExactly(attrs);
    hide EmitItems, Inner, EmitAttrs, PutAll, Matching;
    var items := attrs[x].value.items;
    ReadingFlat(attrs, x);
    UnmarkedItems(items);
    ItemsDistinct(items);
    WriteDistinct(EmitItems("", items));
    LinesEmitted(items);
  }

  // ----- maps

  // parse_dict gives back a flattened map written over its count, in order; the
  // one key it cannot give back is the mark of a list's count. Without a map key
  // `%` nothing is written over.
  lemma MapRoundTrip(attrs: Dict<Value>, x: nat)
    requires x < |attrs| && Readable(attrs, x) && attrs[x].value.Mapping?
    ensures var entries, converted := attrs[x].value.entries, Conversion(Nested(attrs), "");
            && (converted.Some? <==> CountAttrs(attrs).others == 0)
            && (converted.Some? ==>
                  var r := ParseDict(converted.value, attrs[x].key, '.');
                  && r == Collapse([Entry("%", Number(|entries|))] + Unmarked(entries))
                  && (Unique(Keys(entries)) && "%" !in Keys(entries) ==>
                        r == [Entry("%", Number(|entries|))] + Unmarked(entries)))
  {
    ConvertedExactly(attrs);
    hide EmitAttrs, PutAll, Unmarked, Matching;
    var entries := attrs[x].value.entries;
    ReadingFlat(attrs, x);
    UnmarkedConcat([Entry("%", Number(|entries|))], entries);
    UnmarkedOne(Entry("%", Number(|entries|)));
    var all := [Entry("%", Number(|entries|))] + Unmarked(entries);
    WriteTwice(all);
    if Unique(Keys(entries)) && "%" !in Keys(entries) {
      UnmarkedKeys(entries);
      assert Keys(all) == ["%"] + Keys(Unmarked(entries));
      WriteDistinct(all);
    }
  }

  lemma UnmarkedOne(e: Entry<Json>)
    requires e.key != "#"
    ensures Unmarked([e]) == [e]
  {
    assert [e][..0] == [];
  }

  lemma {:induction false} UnmarkedKeys(es: Dict<Json>)
    ensures forall k :: k in Keys(Unmarked(es)) ==> k in Keys(es)
    ensures Unique(Keys(es)) ==> Unique(Keys(Unmarked(es)))
  {
    if es != [] {
      var init, last := es[..|es| - 1], es[|es| - 1];
      UnmarkedKeys(init);
      assert Keys(es) == Keys(init) + [last.key];
      if last.key != "#" {
        assert Keys(Unmarked(es)) == Keys(Unmarked(init)) + [last.key];
        assert Unique(Keys(es)) ==> last.key !in Keys(init) && last.key !in Keys(Unmarked(init));
      } else {
        assert Unmarked(es) == Unmarked(init);
      }
    }
  }

  // ----- lists of objects

  // The flattening of each item that has one, under its position.
  function ByPosition(items: seq<Item>): Dict<Dict<Json>> {
    if items == [] then [] else
      var n := |items| - 1;
      ByPosition(items[..n]) +
      (if EmitItem("", items[n]) == [] then [] else [Entry(Decimal(n), Collapse(EmitItem("", items[n])))])
  }

  lemma {:induction false} PositionKeys(items: seq<Item>)
    ensures forall i :: 0 <= i < |ByPosition(items)| ==> IsPosition(ByPosition(items)[i].key, |items|)
  {
    hide EmitItem;
    if items != [] {
      var n := |items| - 1;
      PositionKeys(items[..n]);
      assert IsPosition(Decimal(n), |items|);
    }
  }

  lemma FreshPosition(items: seq<Item>, n: nat)
    requires n == |items|
    ensures Decimal(n) !in Keys(ByPosition(items))
  {
    hide ByPosition, IsPosition;
    PositionKeys(items);
    forall i | 0 <= i < |ByPosition(items)|
      ensures ByPosition(items)[i].key != Decimal(n)
    {
      PositionFacts(ByPosition(items)[i].key, n);
    }
  }

  lemma GroupedSnoc(es: Dict<Json>, h: string, e: Entry<Json>)
    requires Grouped(es, '.').Some? && '.' !in h
    ensures var groups := Grouped(es, '.').value;
            var group := match Lookup(groups, h) case Some(g) => g case None => [];
            Grouped(es + [Entry(h + "." + e.key, e.value)], '.') == Some(Put(groups, h, Put(group, e.key, e.value)))
  {
    var all := es + [Entry(h + "." + e.key, e.value)];
    assert all[..|all| - 1] == es;
    HeadOf(h, e.key);
  }

  lemma GroupGrows(groups: Dict<Dict<Json>>, h: string, init: Dict<Json>, e: Entry<Json>)
    requires h !in Keys(groups)
    ensures var before := if init == [] then groups else groups + [Entry(h, Collapse(init))];
            var group := match Lookup(before, h) case Some(g) => g case None => [];
            Put(before, h, Put(group, e.key, e.value)) == groups + [Entry(h, Collapse(init + [e]))]
  {
    hide PutAll;
    PutAllSnoc([], init, e);
    if init == [] {
      PutAllNone<Json>([]);
      FindIs(groups, h, |groups|);
    } else {
      FindIs(groups + [Entry(h, Collapse(init))], h, |groups|);
    }
  }

  // Grouping the keys of one more item adds one group, written from its entries.
  lemma {:induction false} GroupedItem(before: Dict<Json>, groups: Dict<Dict<Json>>, h: string, es: Dict<Json>)
    requires Grouped(before, '.') == Some(groups) && h !in Keys(groups) && '.' !in h
    ensures Grouped(before + Prefixed(h + ".", es), '.') ==
            Some(if es == [] then groups else groups + [Entry(h, Collapse(es))])
  {
    hide Grouped, Group, Prefixed, Lookup, Put, PutAll;
    if es == [] {
      assert before + Prefixed(h + ".", []) == before;
    } else {
      var init, last := es[..|es| - 1], es[|es| - 1];
      assert es == init + [last];
      GroupedItem(before, groups, h, init);
      GroupedSnoc(before + Prefixed(h + ".", init), h, last);
      PrefixedSnoc(h + ".", init, last);
      assert before + (Prefixed(h + ".", init) + [Entry(h + "." + last.key, last.value)]) ==
             before + Prefixed(h + ".", init) + [Entry(h + "." + last.key, last.value)];
      GroupGrows(groups, h, init, last);
    }
  }

  lemma {:induction false} GroupedItems(items: seq<Item>)
    ensures Grouped(EmitItems("", items), '.') == Some(ByPosition(items))
  {
    hide EmitItem, Grouped, PutAll;
    if items != [] {
      var n := |items| - 1;
      GroupedItems(items[..n]);
      assert "" + Decimal(n) + "." == Decimal(n) + ".";
      ItemIsUnder(n, items[n]);
      FreshPosition(items[..n], n);
      assert '.' !in Decimal(n);
      GroupedItem(EmitItems("", items[..n]), ByPosition(items[..n]), Decimal(n), EmitItem("", items[n]));
      assert ByPosition(items) == if EmitItem("", items[n]) == [] then ByPosition(items[..n])
                                else ByPosition(items[..n]) + [Entry(Decimal(n), Collapse(EmitItem("", items[n])))];
    } else {
      NothingGrouped();
    }
  }

  lemma NothingGrouped()
    ensures Grouped([], '.') == Some([])
  {
  }

  // The flattenings of the items that have at least one entry, in order.
  function FlatItems(items: seq<Item>): seq<Dict<Json>> {
    if items == [] then [] else
      var last := Collapse(EmitItem("", items[|items| - 1]));
      FlatItems(items[..|items| - 1]) + (if last == [] then [] else [last])
  }

  lemma CollapsedEmpty(es: Dict<Json>)
    ensures Collapse(es) == [] <==> es == []
  {
  }

  lemma {:induction false} PositionValues(items: seq<Item>)
    ensures GroupValues(ByPosition(items)) == FlatItems(items)
  {
    hide EmitItem, PutAll;
    if items != [] {
      var n := |items| - 1;
      PositionValues(items[..n]);
      CollapsedEmpty(EmitItem("", items[n]));
    }
  }

  // Flatten, then read a list of objects back by its name: the result is the
  // flattening of each object that has at least one entry, in order, whatever the
  // names inside the objects and in other attributes are.
  lemma AttrListRoundTrip(attrs: Dict<Value>, x: nat)
    requires x < |attrs| && Readable(attrs, x) && attrs[x].value.Items?
    ensures var converted := Conversion(Nested(attrs), "");
            && (converted.Some? <==> CountAttrs(attrs).others == 0)
            && (converted.Some? ==>
                  ParseAttrList(converted.value, attrs[x].key, '.') == Some(FlatItems(attrs[x].value.items)))
  {
    ConvertedExactly(attrs);
    hide EmitItems, Inner, EmitAttrs, Grouped, ByPosition, FlatItems, PutAll, Matching;
    var items := attrs[x].value.items;
    ReadingFlat(attrs, x);
    UnmarkedItems(items);
    GroupedOfCollapsed(EmitItems("", items), '.');
    GroupedItems(items);
    PositionValues(items);
  }
}
