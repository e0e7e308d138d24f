/** Terraform state attributes: the nested v4 tree and its flat v3 form with
    dotted keys, `convert_to_v3_structure`. */
module AttributeFlattening {
  import opened Text
  import opened OrderedDict

  datatype Json =
    | Null
    | Bool(b: bool)
    | Number(n: int)
    | String(s: string)
    | Array(items: seq<Json>)
    | Object(fields: Dict<Json>)

  // An attribute tree. A string inside a list carries the random number that
  // the conversion draws for it, so a statement about all trees is a statement
  // about all draws.
  datatype Value =
    | Scalar(json: Json)
    | Items(items: seq<Item>)
    | Mapping(entries: Dict<Json>)

  datatype Item =
    | Line(text: string, draw: nat)
    | Nested(attrs: Dict<Value>)
    | Other(json: Json)

  // The conversion raises at a list element that is neither string nor object.
  predicate Convertible(item: Item) {
    match item
    case Line(_, _) => true
    case Nested(attrs) => forall i :: 0 <= i < |attrs| ==> ConvertibleValue(attrs[i].value)
    case Other(_) => false
  }

  predicate ConvertibleValue(v: Value) {
    v.Items? ==> forall i :: 0 <= i < |v.items| ==> Convertible(v.items[i])
  }

  // ----- the flat entries, in the order they are written

  function Prefixed(p: string, es: Dict<Json>): (r: Dict<Json>)
    ensures |r| == |es| && forall i :: 0 <= i < |es| ==> r[i] == Entry(p + es[i].key, es[i].value)
  {
    seq(|es|, i requires 0 <= i < |es| => Entry(p + es[i].key, es[i].value))
  }

  function EmitAttrs(prefix: string, attrs: Dict<Value>): Dict<Json>
    decreases attrs
  {
    if attrs == [] then [] else
      EmitAttrs(prefix, attrs[..|attrs| - 1]) + EmitValue(prefix + attrs[|attrs| - 1].key, attrs[|attrs| - 1].value)
  }

  function EmitValue(path: string, v: Value): Dict<Json>
    decreases v
  {
    match v
    case Scalar(json) => [Entry(path, json)]
    case Items(items) =>
      (if items == [] then [] else [Entry(path + ".#", Number(|items|))]) + EmitItems(path + ".", items)
    case Mapping(entries) => [Entry(path + ".%", Number(|entries|))] + Prefixed(path + ".", entries)
  }

  function EmitItems(prefix: string, items: seq<Item>): Dict<Json>
    decreases items
  {
    if items == [] then [] else
      var n := |items| - 1;
      EmitItems(prefix, items[..n]) + EmitItem(prefix + Decimal(n) + ".", items[n])
  }

  function EmitItem(prefix: string, item: Item): Dict<Json>
    decreases item
  {
    match item
    case Line(text, draw) => [Entry(prefix + Decimal(draw), String(text))]
    case Nested(attrs) => EmitAttrs(prefix, attrs)
    case Other(_) => []
  }

  // Writing entries one after the other into an empty dictionary.
  function Collapse(es: Dict<Json>): Dict<Json> {
    PutAll([], es)
  }

  // What the conversion of an item returns; None is an exception.
  function Conversion(item: Item, prefix: string): Option<Dict<Json>> {
    if Convertible(item) then Some(Collapse(EmitItem(prefix, item))) else None
  }

  lemma MappingEntries(path: string, entries: Dict<Json>)
    ensures var flat := EmitValue(path, Mapping(entries));
            && |flat| == |entries| + 1 && flat[0] == Entry(path + ".%", Number(|entries|))
            && forall i :: 0 <= i < |entries| ==> flat[i + 1] == Entry(path + "." + entries[i].key, entries[i].value)
  {
    forall i | 0 <= i < |entries|
      ensures EmitValue(path, Mapping(entries))[i + 1] == Entry(path + "." + entries[i].key, entries[i].value)
    {
      assert EmitValue(path, Mapping(entries))[i + 1] == Prefixed(path + ".", entries)[i];
    }
  }

  // ----- the conversion fills a dictionary in place

  lemma PutAllNext(d: Dict<Json>, es: Dict<Json>, n: nat)
    requires n < |es|
    ensures PutAll(d, es[..n + 1]) == Put(PutAll(d, es[..n]), es[n].key, es[n].value)
  {
    hide PutAll, Put;
    PutAllSnoc(d, es[..n], es[n]);
    assert es[..n + 1] == es[..n] + [es[n]];
  }

  method ConvertMapping(result: Dict<Json>, path: string, entries: Dict<Json>) returns (r: Dict<Json>)
    ensures r == PutAll(result, EmitValue(path, Mapping(entries)))
  {
    hide PutAll, Put, EmitValue;
    r := Put(result, path + ".%", Number(|entries|));
    ghost var flat := EmitValue(path, Mapping(entries));
    MappingEntries(path, entries);
    NothingWritten(result);
    PutAllNext(result, flat, 0);
    for i := 0 to |entries|
      invariant r == PutAll(result, flat[..i + 1])
    {
      PutAllNext(result, flat, i + 1);
      r := Put(r, path + "." + entries[i].key, entries[i].value);
    }
    assert flat[..|entries| + 1] == flat;
  }

  method ConvertList(result: Dict<Json>, path: string, items: seq<Item>) returns (r: Option<Dict<Json>>)
    requires Unique(Keys(result))
    ensures r == if ConvertibleValue(Items(items)) then Some(PutAll(result, EmitValue(path, Items(items)))) else None
    decreases items
  {
    hide EmitItem, PutAll;
    ghost var header: Dict<Json> := if items == [] then [] else [Entry(path + ".#", Number(|items|))];
    var current := result;
    if |items| > 0 {
      current := Put(current, path + ".#", Number(|items|));
      PutAllOne(result, header[0]);
    } else {
      NothingWritten(result);
    }
    assert items[..0] == [] && header + EmitItems(path + ".", items[..0]) == header;
    for i := 0 to |items|
      invariant forall j :: 0 <= j < i ==> Convertible(items[j])
      invariant current == PutAll(result, header + EmitItems(path + ".", items[..i]))
    {
      var part := ConvertToV3(items[i], path + "." + Decimal(i) + ".");
      if part.None? {
        return None;
      }
      ghost var before := header + EmitItems(path + ".", items[..i]);
      ghost var added := EmitItem(path + "." + Decimal(i) + ".", items[i]);
      PutAllUnique(result, before);
      MergeIsWrite(current, added);
      PutAllConcat(result, before, added);
      assert items[..i + 1][..i] == items[..i];
      assert header + EmitItems(path + ".", items[..i + 1]) == before + added;
      current := PutAll(current, part.value);
    }
    assert items[..|items|] == items;
    r := Some(current);
  }

  lemma NothingWritten(d: Dict<Json>)
    ensures PutAll(d, []) == d
  {
  }

  // One attribute, by the type of its value.
  method ConvertAttribute(result: Dict<Json>, path: string, v: Value) returns (r: Option<Dict<Json>>)
    requires Unique(Keys(result))
    ensures r == if ConvertibleValue(v) then Some(PutAll(result, EmitValue(path, v))) else None
    decreases v
  {
    hide PutAll, EmitValue;
    match v
    case Items(items) =>
      r := ConvertList(result, path, items);
    case Mapping(entries) =>
      var t := ConvertMapping(result, path, entries);
      r := Some(t);
    case Scalar(json) =>
      ScalarWritten(result, path, json);
      r := Some(Put(result, path, json));
  }

  method ConvertObject(attrs: Dict<Value>, prefix: string) returns (r: Option<Dict<Json>>)
    ensures r == Conversion(Nested(attrs), prefix)
    decreases attrs, 0
  {
    hide PutAll, EmitValue;
    var result: Dict<Json> := [];
    NothingWritten([]);
    for i := 0 to |attrs|
      invariant forall j :: 0 <= j < i ==> ConvertibleValue(attrs[j].value)
      invariant Unique(Keys(result)) && result == Collapse(EmitAttrs(prefix, attrs[..i]))
    {
      var path, value := prefix + attrs[i].key, attrs[i].value;
      var next := ConvertAttribute(result, path, value);
      if next.None? {
        return None;
      }
      assert attrs[..i + 1][..i] == attrs[..i];
      PutAllConcat([], EmitAttrs(prefix, attrs[..i]), EmitValue(path, value));
      PutAllUnique(result, EmitValue(path, value));
      result := next.value;
    }
    assert attrs[..|attrs|] == attrs;
    r := Some(result);
  }

  method ConvertToV3(item: Item, prefix: string) returns (r: Option<Dict<Json>>)
    ensures r == Conversion(item, prefix)
    decreases item
  {
    match item
    case Line(text, draw) =>
      WriteDistinct([Entry(prefix + Decimal(draw), String(text))]);
      r := Some([Entry(prefix + Decimal(draw), String(text))]);
    case Nested(attrs) =>
      r := ConvertObject(attrs, prefix);
    case Other(_) =>
      r := None;
  }

  lemma ScalarWritten(d: Dict<Json>, path: string, json: Json)
    ensures PutAll(d, EmitValue(path, Scalar(json))) == Put(d, path, json)
  {
    PutAllOne(d, Entry(path, json));
  }
}
