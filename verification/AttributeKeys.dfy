/** The keys of flattened attributes: prefixing, distinctness and number. */
module AttributeKeys {
  import opened Text
  import opened OrderedDict
  import opened AttributeFlattening

  // ----- flattening under a prefix

  lemma PrefixedConcat(p: string, a: Dict<Json>, b: Dict<Json>)
    ensures Prefixed(p, a + b) == Prefixed(p, a) + Prefixed(p, b)
  {
  }

  lemma PrefixedSnoc(p: string, es: Dict<Json>, e: Entry<Json>)
    ensures Prefixed(p, es + [e]) == Prefixed(p, es) + [Entry(p + e.key, e.value)]
  {
  }

  lemma PrefixedTwice(p: string, q: string, es: Dict<Json>)
    ensures Prefixed(p, Prefixed(q, es)) == Prefixed(p + q, es)
  {
    forall i | 0 <= i < |es|
      ensures Prefixed(p, Prefixed(q, es))[i] == Prefixed(p + q, es)[i]
    {
      assert p + (q + es[i].key) == p + q + es[i].key;
    }
  }

  lemma {:induction false} AttrsUnderPrefix(p: string, q: string, attrs: Dict<Value>)
    ensures EmitAttrs(p + q, attrs) == Prefixed(p, EmitAttrs(q, attrs))
    decreases attrs
  {
    hide EmitValue;
    if attrs != [] {
      var init, last := attrs[..|attrs| - 1], attrs[|attrs| - 1];
      AttrsUnderPrefix(p, q, init);
      assert p + q + last.key == p + (q + last.key);
      ValueUnderPrefix(p, q + last.key, last.value);
      PrefixedConcat(p, EmitAttrs(q, init), EmitValue(q + last.key, last.value));
    }
  }

  lemma {:induction false} ValueUnderPrefix(p: string, q: string, v: Value)
    ensures EmitValue(p + q, v) == Prefixed(p, EmitValue(q, v))
    decreases v
  {
    hide EmitItems;
    match v
    case Scalar(_) =>
    case Mapping(entries) =>
      assert p + q + "." == p + (q + ".") && p + q + ".%" == p + (q + ".%");
      PrefixedTwice(p, q + ".", entries);
      PrefixedConcat(p, [Entry(q + ".%", Number(|entries|))], Prefixed(q + ".", entries));
    case Items(items) =>
      assert p + q + "." == p + (q + ".") && p + q + ".#" == p + (q + ".#");
      ItemsUnderPrefix(p, q + ".", items);
      PrefixedConcat(p, if items == [] then [] else [Entry(q + ".#", Number(|items|))], EmitItems(q + ".", items));
  }

  lemma {:induction false} ItemsUnderPrefix(p: string, q: string, items: seq<Item>)
    ensures EmitItems(p + q, items) == Prefixed(p, EmitItems(q, items))
    decreases items
  {
    hide EmitItem;
    if items != [] {
      var n := |items| - 1;
      ItemsUnderPrefix(p, q, items[..n]);
      assert p + q + Decimal(n) + "." == p + (q + Decimal(n) + ".");
      ItemUnderPrefix(p, q + Decimal(n) + ".", items[n]);
      PrefixedConcat(p, EmitItems(q, items[..n]), EmitItem(q + Decimal(n) + ".", items[n]));
    }
  }

  // Flattening under a prefix is prefixing every key of the flattening.
  lemma {:induction false} ItemUnderPrefix(p: string, q: string, item: Item)
    ensures EmitItem(p + q, item) == Prefixed(p, EmitItem(q, item))
    decreases item
  {
    match item
    case Line(_, draw) => assert p + q + Decimal(draw) == p + (q + Decimal(draw));
    case Nested(attrs) => AttrsUnderPrefix(p, q, attrs);
    case Other(_) =>
  }

  // ----- distinct keys

  // Attribute names are distinct and have no dot, at every level; map keys are
  // distinct and none of them is the key of the added count.
  predicate WellNamed(attrs: Dict<Value>) {
    Unique(Keys(attrs)) && forall i :: 0 <= i < |attrs| ==> '.' !in attrs[i].key && WellNamedValue(attrs[i].value)
  }

  predicate WellNamedValue(v: Value) {
    match v
    case Scalar(_) => true
    case Mapping(entries) => Unique(Keys(entries)) && "%" !in Keys(entries)
    case Items(items) => forall i :: 0 <= i < |items| ==> items[i].Nested? ==> WellNamed(items[i].attrs)
  }

  // The first dot-separated part of a key.
  function Head(key: string): string {
    key[..IndexOf(key, '.')]
  }

  lemma HeadOf(h: string, rest: string)
    requires '.' !in h
    ensures Head(h) == h && Head(h + "." + rest) == h
    ensures IndexOf(h + "." + rest, '.') == |h| && (h + "." + rest)[|h| + 1..] == rest
  {
    var key := h + "." + rest;
    assert forall k :: 0 <= k < |h| ==> key[k] == h[k];
    IndexOfIs(key, '.', |h|);
    IndexOfIs(h, '.', |h|);
  }

  predicate AllUnder(h: string, es: Dict<Json>) {
    forall i :: 0 <= i < |es| ==> Head(es[i].key) == h
  }

  // Keys under one head part, and keys under other head parts.
  lemma UniqueConcat(a: Dict<Json>, b: Dict<Json>)
    requires Unique(Keys(a)) && Unique(Keys(b))
    requires forall i, j :: 0 <= i < |a| && 0 <= j < |b| ==> a[i].key != b[j].key
    ensures Unique(Keys(a + b))
  {
    assert Keys(a + b) == Keys(a) + Keys(b);
    assert forall i :: 0 <= i < |a| ==> Keys(a)[i] == a[i].key;
    assert forall j :: 0 <= j < |b| ==> Keys(b)[j] == b[j].key;
  }

  lemma UniquePrefixed(p: string, es: Dict<Json>)
    requires Unique(Keys(es))
    ensures Unique(Keys(Prefixed(p, es)))
  {
    var ks := Keys(Prefixed(p, es));
    forall i, j | 0 <= i < j < |ks|
      ensures ks[i] != ks[j]
    {
      assert ks[i] == p + Keys(es)[i] && ks[j] == p + Keys(es)[j];
      assert ks[i][|p|..] == Keys(es)[i] && ks[j][|p|..] == Keys(es)[j];
    }
  }

  lemma PrefixedUnder(h: string, es: Dict<Json>)
    requires '.' !in h
    ensures AllUnder(h, Prefixed(h + ".", es))
  {
    forall i | 0 <= i < |es|
      ensures Head(Prefixed(h + ".", es)[i].key) == h
    {
      HeadOf(h, es[i].key);
    }
  }

  // What a value is flattened to below its own name.
  function Inner(v: Value): Dict<Json> {
    match v
    case Scalar(_) => []
    case Items(items) => (if items == [] then [] else [Entry("#", Number(|items|))]) + EmitItems("", items)
    case Mapping(entries) => [Entry("%", Number(|entries|))] + entries
  }

  lemma ValueIsInner(h: string, v: Value)
    ensures EmitValue(h, v) == if v.Scalar? then [Entry(h, v.json)] else Prefixed(h + ".", Inner(v))
  {
    hide EmitItems;
    match v
    case Scalar(_) =>
    case Mapping(entries) =>
      PrefixedConcat(h + ".", [Entry("%", Number(|entries|))], entries);
      assert h + "." + "%" == h + ".%";
    case Items(items) =>
      var header: Dict<Json> := if items == [] then [] else [Entry("#", Number(|items|))];
      PrefixedConcat(h + ".", header, EmitItems("", items));
      assert h + "." + "#" == h + ".#";
      assert h + "." + "" == h + ".";
      ItemsUnderPrefix(h + ".", "", items);
  }

  lemma ValueUnder(h: string, v: Value)
    requires '.' !in h
    ensures AllUnder(h, EmitValue(h, v))
  {
    hide EmitValue, Inner, Head;
    ValueIsInner(h, v);
    HeadOf(h, "");
    PrefixedUnder(h, Inner(v));
  }

  lemma ItemIsUnder(n: nat, item: Item)
    ensures EmitItem(Decimal(n) + ".", item) == Prefixed(Decimal(n) + ".", EmitItem("", item))
    ensures AllUnder(Decimal(n), EmitItem(Decimal(n) + ".", item))
  {
    hide EmitItem, Head;
    assert Decimal(n) + "." + "" == Decimal(n) + ".";
    ItemUnderPrefix(Decimal(n) + ".", "", item);
    assert '.' !in Decimal(n);
    PrefixedUnder(Decimal(n), EmitItem("", item));
  }

  lemma {:induction false} AttrsHeads(attrs: Dict<Value>)
    requires forall i :: 0 <= i < |attrs| ==> '.' !in attrs[i].key
    ensures forall j :: 0 <= j < |EmitAttrs("", attrs)| ==> Head(EmitAttrs("", attrs)[j].key) in Keys(attrs)
  {
    hide EmitValue, Head;
    if attrs != [] {
      var init, last := attrs[..|attrs| - 1], attrs[|attrs| - 1];
      AttrsHeads(init);
      assert Keys(attrs) == Keys(init) + [last.key];
      assert "" + last.key == last.key;
      ValueUnder(last.key, last.value);
    }
  }

  // The text is one of the first n decimal numerals.
  ghost predicate IsPosition(s: string, n: nat) {
    exists m: nat :: m < n && s == Decimal(m)
  }

  lemma {:induction false} ItemsHeads(items: seq<Item>)
    ensures forall j :: 0 <= j < |EmitItems("", items)| ==> IsPosition(Head(EmitItems("", items)[j].key), |items|)
  {
    hide EmitItem, Head;
    if items != [] {
      var n := |items| - 1;
      ItemsHeads(items[..n]);
      assert "" + Decimal(n) + "." == Decimal(n) + ".";
      ItemIsUnder(n, items[n]);
      assert IsPosition(Decimal(n), |items|);
    }
  }

  lemma PositionFacts(s: string, n: nat)
    requires IsPosition(s, n)
    ensures s != Decimal(n) && s != "#"
  {
    var m: nat :| m < n && s == Decimal(m);
    assert IsDigit(Decimal(m)[0]);
    if s == Decimal(n) {
      DecimalInjective(m, n);
    }
  }

  lemma {:induction false} AttrsDistinct(attrs: Dict<Value>)
    requires WellNamed(attrs)
    ensures Unique(Keys(EmitAttrs("", attrs)))
    decreases attrs
  {
    hide EmitValue, Head;
    if attrs != [] {
      var init, last := attrs[..|attrs| - 1], attrs[|attrs| - 1];
      assert Keys(attrs) == Keys(init) + [last.key];
      assert "" + last.key == last.key;
      AttrsDistinct(init);
      AttrsHeads(init);
      ValueUnder(last.key, last.value);
      ValueDistinct(last.key, last.value);
      UniqueConcat(EmitAttrs("", init), EmitValue(last.key, last.value));
    }
  }

  lemma {:induction false} ValueDistinct(h: string, v: Value)
    requires WellNamedValue(v)
    ensures Unique(Keys(EmitValue(h, v))) && Unique(Keys(Inner(v)))
    decreases v, 1
  {
    hide EmitValue, Inner;
    InnerDistinct(v);
    ValueIsInner(h, v);
    UniquePrefixed(h + ".", Inner(v));
  }

  lemma {:induction false} InnerDistinct(v: Value)
    requires WellNamedValue(v)
    ensures Unique(Keys(Inner(v)))
    decreases v, 0
  {
    hide EmitItems, Head;
    match v
    case Scalar(_) =>
    case Mapping(entries) =>
      assert Keys(Inner(v)) == ["%"] + Keys(entries);
    case Items(items) =>
      ItemsDistinct(items);
      ItemsHeads(items);
      HeadOf("#", "");
      if items != [] {
        forall j | 0 <= j < |EmitItems("", items)|
          ensures EmitItems("", items)[j].key != "#"
        {
          PositionFacts(Head(EmitItems("", items)[j].key), |items|);
        }
        UniqueConcat([Entry("#", Number(|items|))], EmitItems("", items));
      } else {
        NoItems();
      }
  }

  lemma NoItems()
    ensures EmitItems("", []) == []
  {
  }

  lemma {:induction false} ItemsDistinct(items: seq<Item>)
    requires forall i :: 0 <= i < |items| ==> items[i].Nested? ==> WellNamed(items[i].attrs)
    ensures Unique(Keys(EmitItems("", items)))
    decreases items
  {
    hide EmitItem, Head;
    if items != [] {
      var n := |items| - 1;
      var init, last := items[..n], items[n];
      ItemsDistinct(init);
      ItemsHeads(init);
      ItemIsUnder(n, last);
      ItemDistinct(last);
      UniquePrefixed(Decimal(n) + ".", EmitItem("", last));
      assert "" + Decimal(n) + "." == Decimal(n) + ".";
      forall i, j | 0 <= i < |EmitItems("", init)| && 0 <= j < |EmitItem(Decimal(n) + ".", last)|
        ensures EmitItems("", init)[i].key != EmitItem(Decimal(n) + ".", last)[j].key
      {
        PositionFacts(Head(EmitItems("", init)[i].key), n);
      }
      UniqueConcat(EmitItems("", init), EmitItem(Decimal(n) + ".", last));
    }
  }

  lemma {:induction false} ItemDistinct(item: Item)
    requires item.Nested? ==> WellNamed(item.attrs)
    ensures Unique(Keys(EmitItem("", item)))
    decreases item
  {
    if item.Nested? {
      AttrsDistinct(item.attrs);
    }
  }

  // Distinct paths get distinct flat keys, whatever numbers were drawn, so the
  // flattened dictionary is the list of emitted entries: nothing is merged and
  // nothing is lost.
  lemma FlatteningIsInjective(attrs: Dict<Value>)
    requires WellNamed(attrs)
    ensures Collapse(EmitAttrs("", attrs)) == EmitAttrs("", attrs)
  {
    hide EmitAttrs;
    AttrsDistinct(attrs);
    WriteDistinct(EmitAttrs("", attrs));
  }

  // ----- the number of entries

  // The last count is that of list elements that are neither string nor object.
  datatype Tally = Tally(scalars: nat, lines: nat, mapEntries: nat, maps: nat, lists: nat, others: nat) {
    function Plus(t: Tally): Tally {
      Tally(scalars + t.scalars, lines + t.lines, mapEntries + t.mapEntries, maps + t.maps, lists + t.lists,
            others + t.others)
    }

    // The entries of the flat dictionary.

    function Total(): nat {
      scalars + lines + mapEntries + maps + lists
    }
  }

  const ZERO := Tally(0, 0, 0, 0, 0, 0)

  // What a tree contains outside the values of its maps.
  function CountAttrs(attrs: Dict<Value>): Tally {
    if attrs == [] then ZERO else CountAttrs(attrs[..|attrs| - 1]).Plus(CountValue(attrs[|attrs| - 1].value))
  }

  function CountValue(v: Value): Tally {
    match v
    case Scalar(_) => ZERO.(scalars := 1)
    case Mapping(entries) => ZERO.(maps := 1, mapEntries := |entries|)
    case Items(items) => CountItems(items).Plus(ZERO.(lists := if items == [] then 0 else 1))
  }

  function CountItems(items: seq<Item>): Tally {
    if items == [] then ZERO else CountItems(items[..|items| - 1]).Plus(CountItem(items[|items| - 1]))
  }

  function CountItem(item: Item): Tally {
    match item
    case Line(_, _) => ZERO.(lines := 1)
    case Nested(attrs) => CountAttrs(attrs)
    case Other(_) => ZERO.(others := 1)
  }

  // The conversion succeeds exactly for trees without other list elements.
  lemma {:induction false} ConvertibleExactly(item: Item)
    ensures Convertible(item) <==> CountItem(item).others == 0
    decreases item
  {
    match item
    case Line(_, _) =>
    case Nested(attrs) => ConvertibleAttrs(attrs);
    case Other(_) =>
  }

  lemma {:induction false} ConvertibleAttrs(attrs: Dict<Value>)
    ensures Convertible(Nested(attrs)) <==> CountAttrs(attrs).others == 0
    decreases attrs
  {
    if attrs != [] {
      var init, last := attrs[..|attrs| - 1], attrs[|attrs| - 1];
      ConvertibleAttrs(init);
      ConvertibleOne(last.value);
      assert forall i :: 0 <= i < |init| ==> init[i] == attrs[i];
    }
  }

  lemma {:induction false} ConvertibleOne(v: Value)
    ensures ConvertibleValue(v) <==> CountValue(v).others == 0
    decreases v
  {
    if v.Items? {
      ConvertibleItems(v.items);
    }
  }

  lemma {:induction false} ConvertibleItems(items: seq<Item>)
    ensures (forall i :: 0 <= i < |items| ==> Convertible(items[i])) <==> CountItems(items).others == 0
    decreases items
  {
    if items != [] {
      var init, last := items[..|items| - 1], items[|items| - 1];
      ConvertibleItems(init);
      ConvertibleExactly(last);
      assert forall i :: 0 <= i < |init| ==> init[i] == items[i];
    }
  }

  // What the conversion of an object returns.
  lemma ConvertedExactly(attrs: Dict<Value>)
    ensures var converted := Conversion(Nested(attrs), "");
            && (converted.Some? <==> CountAttrs(attrs).others == 0)
            && (converted.Some? ==> converted.value == Collapse(EmitAttrs("", attrs)))
  {
    ConvertibleAttrs(attrs);
  }

  lemma {:induction false} EmittedCount(prefix: string, attrs: Dict<Value>)
    ensures |EmitAttrs(prefix, attrs)| == CountAttrs(attrs).Total()
    decreases attrs
  {
    if attrs != [] {
      EmittedCount(prefix, attrs[..|attrs| - 1]);
      EmittedValueCount(prefix + attrs[|attrs| - 1].key, attrs[|attrs| - 1].value);
    }
  }

  lemma {:induction false} EmittedValueCount(path: string, v: Value)
    ensures |EmitValue(path, v)| == CountValue(v).Total()
    decreases v
  {
    if v.Items? {
      EmittedItemsCount(path + ".", v.items);
    }
  }

  lemma {:induction false} EmittedItemsCount(prefix: string, items: seq<Item>)
    ensures |EmitItems(prefix, items)| == CountItems(items).Total()
    decreases items
  {
    if items != [] {
      var n := |items| - 1;
      EmittedItemsCount(prefix, items[..n]);
      if items[n].Nested? {
        EmittedCount(prefix + Decimal(n) + ".", items[n].attrs);
      }
    }
  }

  // The flat dictionary has one entry per scalar, list string and map entry,
  // and one count per map and per non-empty list.
  lemma FlatSize(attrs: Dict<Value>)
    requires WellNamed(attrs) && CountAttrs(attrs).others == 0
    ensures Conversion(Nested(attrs), "").Some?
    ensures |Conversion(Nested(attrs), "").value| == CountAttrs(attrs).Total()
  {
    ConvertedExactly(attrs);
    FlatteningIsInjective(attrs);
    EmittedCount("", attrs);
  }
}
