/** What the flat dictionary holds, told by the paths through the tree. */
module AttributePaths {
  import opened Text
  import opened OrderedDict
  import opened AttributeFlattening
  import opened AttributeKeys

  // The path leads to this value: through attribute names, positions in lists and
  // map keys to a scalar, a map's or a list's count, a map's value, or a string in
  // a list, whose last part is the number drawn for it.
  predicate AttrsAt(attrs: Dict<Value>, path: seq<string>, json: Json)
    decreases attrs
  {
    path != [] && exists i :: 0 <= i < |attrs| && attrs[i].key == path[0] && ValueAt(attrs[i].value, path[1..], json)
  }

  predicate ValueAt(v: Value, rest: seq<string>, json: Json)
    decreases v
  {
    match v
    case Scalar(j) => rest == [] && json == j
    case Mapping(entries) =>
      |rest| == 1 && ((rest[0] == "%" && json == Number(|entries|)) || Entry(rest[0], json) in entries)
    case Items(items) =>
      (rest == ["#"] && items != [] && json == Number(|items|)) || ItemsAt(items, rest, json)
  }

  predicate ItemsAt(items: seq<Item>, rest: seq<string>, json: Json)
    decreases items
  {
    |rest| >= 2 && exists i :: 0 <= i < |items| && rest[0] == Decimal(i) && ItemAt(items[i], rest[1..], json)
  }

  predicate ItemAt(item: Item, rest: seq<string>, json: Json)
    decreases item
  {
    match item
    case Line(text, draw) => rest == [Decimal(draw)] && json == String(text)
    case Nested(attrs) => AttrsAt(attrs, rest, json)
    case Other(_) => false
  }

  lemma InConcat(e: Entry<Json>, a: Dict<Json>, b: Dict<Json>)
    ensures e in a + b <==> e in a || e in b
  {
  }

  lemma InPrefixed(p: string, es: Dict<Json>, key: string, json: Json)
    ensures Entry(key, json) in Prefixed(p, es) <==> exists rest :: key == p + rest && Entry(rest, json) in es
  {
    var r := Prefixed(p, es);
    if Entry(key, json) in r {
      var i :| 0 <= i < |r| && r[i] == Entry(key, json);
      assert key == p + es[i].key && Entry(es[i].key, json) == es[i];
    }
    if rest :| key == p + rest && Entry(rest, json) in es {
      var i :| 0 <= i < |es| && es[i] == Entry(rest, json);
      assert r[i] == Entry(key, json);
    }
  }

  lemma JoinMore(part: string, rest: seq<string>)
    ensures Join([part] + rest, '.') == if rest == [] then part else part + "." + Join(rest, '.')
  {
    assert "." == ['.'];
    if rest == [] {
      assert [part] + rest == [part];
    } else {
      JoinCons(part, rest, '.');
    }
  }

  // The key is a path to this value, with dots between its parts.
  ghost predicate AttrsKey(attrs: Dict<Value>, key: string, json: Json) {
    exists path :: AttrsAt(attrs, path, json) && path != [] && key == Join(path, '.')
  }

  ghost predicate ValueKey(h: string, v: Value, key: string, json: Json) {
    exists rest :: ValueAt(v, rest, json) && key == Join([h] + rest, '.')
  }

  ghost predicate ItemsKey(items: seq<Item>, key: string, json: Json) {
    exists rest :: ItemsAt(items, rest, json) && |rest| >= 2 && key == Join(rest, '.')
  }

  ghost predicate ItemKey(item: Item, key: string, json: Json) {
    exists rest :: ItemAt(item, rest, json) && rest != [] && key == Join(rest, '.')
  }

  lemma AttrsAtLast(attrs: Dict<Value>, path: seq<string>, json: Json)
    requires attrs != []
    ensures var init, last := attrs[..|attrs| - 1], attrs[|attrs| - 1];
            AttrsAt(attrs, path, json) <==>
              AttrsAt(init, path, json) || (path != [] && last.key == path[0] && ValueAt(last.value, path[1..], json))
  {
    hide ValueAt;
    var init := attrs[..|attrs| - 1];
    assert forall i :: 0 <= i < |init| ==> init[i] == attrs[i];
  }

  lemma AttrsKeyLast(attrs: Dict<Value>, key: string, json: Json)
    requires attrs != []
    ensures var init, last := attrs[..|attrs| - 1], attrs[|attrs| - 1];
            AttrsKey(attrs, key, json) <==> AttrsKey(init, key, json) || ValueKey(last.key, last.value, key, json)
  {
    hide AttrsAt, ValueAt, Join;
    var init, last := attrs[..|attrs| - 1], attrs[|attrs| - 1];
    if path :| AttrsAt(attrs, path, json) && path != [] && key == Join(path, '.') {
      AttrsAtLast(attrs, path, json);
      assert path == [path[0]] + path[1..];
    }
    if path :| AttrsAt(init, path, json) && path != [] && key == Join(path, '.') {
      AttrsAtLast(attrs, path, json);
    }
    if rest :| ValueAt(last.value, rest, json) && key == Join([last.key] + rest, '.') {
      var path := [last.key] + rest;
      assert path[1..] == rest;
      AttrsAtLast(attrs, path, json);
    }
  }

  lemma {:induction false} AttrsEmitted(attrs: Dict<Value>, key: string, json: Json)
    ensures Entry(key, json) in EmitAttrs("", attrs) <==> AttrsKey(attrs, key, json)
    decreases attrs
  {
    hide EmitValue, AttrsKey, ValueKey;
    if attrs == [] {
      NoAttrs(key, json);
    } else {
      var init, last := attrs[..|attrs| - 1], attrs[|attrs| - 1];
      AttrsEmitted(init, key, json);
      assert "" + last.key == last.key;
      ValueEmitted(last.key, last.value, key, json);
      InConcat(Entry(key, json), EmitAttrs("", init), EmitValue(last.key, last.value));
      AttrsKeyLast(attrs, key, json);
    }
  }

  lemma NoAttrs(key: string, json: Json)
    ensures !AttrsKey([], key, json)
  {
  }

  lemma {:induction false} ValueEmitted(h: string, v: Value, key: string, json: Json)
    ensures Entry(key, json) in EmitValue(h, v) <==> ValueKey(h, v, key, json)
    decreases v, 1
  {
    hide EmitValue, Inner, Join;
    ValueIsInner(h, v);
    if v.Scalar? {
      JoinMore(h, []);
      if Entry(key, json) in EmitValue(h, v) {
        assert ValueAt(v, [], json);
      }
    } else {
      InPrefixed(h + ".", Inner(v), key, json);
      forall rest
        ensures Entry(rest, json) in Inner(v) <==> InnerKey(v, rest, json)
      {
        InnerEmitted(v, rest, json);
      }
      InnerKeys(h, v, key, json);
    }
  }

  ghost predicate InnerKey(v: Value, key: string, json: Json) {
    exists rest :: ValueAt(v, rest, json) && rest != [] && key == Join(rest, '.')
  }

  lemma InnerKeys(h: string, v: Value, key: string, json: Json)
    requires !v.Scalar?
    ensures ValueKey(h, v, key, json) <==> exists k :: key == h + "." + k && InnerKey(v, k, json)
  {
    hide Join, ValueAt;
    if rest :| ValueAt(v, rest, json) && key == Join([h] + rest, '.') {
      PathGoesOn(v, rest, json);
      JoinMore(h, rest);
      InnerKeyIs(v, rest, json);
    }
    if k :| key == h + "." + k && InnerKey(v, k, json) {
      LongerKey(h, v, k, json);
    }
  }

  lemma PathGoesOn(v: Value, rest: seq<string>, json: Json)
    requires !v.Scalar? && ValueAt(v, rest, json)
    ensures rest != []
  {
  }

  lemma InnerKeyIs(v: Value, rest: seq<string>, json: Json)
    requires ValueAt(v, rest, json) && rest != []
    ensures InnerKey(v, Join(rest, '.'), json)
  {
    hide Join, ValueAt;
  }

  lemma LongerKey(h: string, v: Value, k: string, json: Json)
    requires InnerKey(v, k, json)
    ensures ValueKey(h, v, h + "." + k, json)
  {
    hide Join, ValueAt;
    var rest :| ValueAt(v, rest, json) && rest != [] && k == Join(rest, '.');
    JoinMore(h, rest);
  }

  lemma {:induction false} InnerEmitted(v: Value, key: string, json: Json)
    requires !v.Scalar?
    ensures Entry(key, json) in Inner(v) <==> InnerKey(v, key, json)
    decreases v, 0
  {
    hide EmitItems;
    match v
    case Mapping(entries) =>
      InConcat(Entry(key, json), [Entry("%", Number(|entries|))], entries);
      JoinMore(key, []);
      assert [key] + [] == [key];
      if Entry(key, json) in Inner(v) {
        assert ValueAt(v, [key], json);
      }
      if rest :| ValueAt(v, rest, json) && rest != [] && key == Join(rest, '.') {
        assert rest == [rest[0]];
      }
    case Items(items) =>
      var header: Dict<Json> := if items == [] then [] else [Entry("#", Number(|items|))];
      InConcat(Entry(key, json), header, EmitItems("", items));
      ItemsEmitted(items, key, json);
      ItemsInner(items, key, json);
  }

  lemma ItemsInner(items: seq<Item>, key: string, json: Json)
    ensures InnerKey(Items(items), key, json) <==>
              (key == "#" && items != [] && json == Number(|items|)) || ItemsKey(items, key, json)
  {
    hide ItemsAt, Join;
    JoinMore("#", []);
    assert ["#"] + [] == ["#"];
    if key == "#" && items != [] && json == Number(|items|) {
      assert ValueAt(Items(items), ["#"], json);
    }
    if rest :| ItemsAt(items, rest, json) && |rest| >= 2 && key == Join(rest, '.') {
      assert ValueAt(Items(items), rest, json);
    }
    if rest :| ValueAt(Items(items), rest, json) && rest != [] && key == Join(rest, '.') {
      ItemsAtLong(items, rest, json);
      if rest != ["#"] {
        assert ItemsAt(items, rest, json);
        assert ItemsKey(items, Join(rest, '.'), json);
      }
    }
  }

  lemma ItemsAtLong(items: seq<Item>, rest: seq<string>, json: Json)
    ensures ItemsAt(items, rest, json) ==> |rest| >= 2
  {
  }

  lemma ItemsAtLast(items: seq<Item>, rest: seq<string>, json: Json)
    requires items != []
    ensures var n := |items| - 1;
            ItemsAt(items, rest, json) <==>
              ItemsAt(items[..n], rest, json) ||
              (|rest| >= 2 && rest[0] == Decimal(n) && ItemAt(items[n], rest[1..], json))
  {
    hide ItemAt, Decimal;
    var init := items[..|items| - 1];
    assert forall i :: 0 <= i < |init| ==> init[i] == items[i];
  }

  lemma ItemsKeyLast(items: seq<Item>, key: string, json: Json)
    requires items != []
    ensures var n := |items| - 1;
            ItemsKey(items, key, json) <==>
              ItemsKey(items[..n], key, json) || exists k :: key == Decimal(n) + "." + k && ItemKey(items[n], k, json)
  {
    hide ItemsAt, ItemAt, Join, Decimal;
    var n := |items| - 1;
    if rest :| ItemsAt(items, rest, json) && |rest| >= 2 && key == Join(rest, '.') {
      ItemsAtLast(items, rest, json);
      if !ItemsAt(items[..n], rest, json) {
        LastItemKey(items[n], rest, json);
      }
    }
    if rest :| ItemsAt(items[..n], rest, json) && |rest| >= 2 && key == Join(rest, '.') {
      ItemsAtLast(items, rest, json);
    }
    if k :| key == Decimal(n) + "." + k && ItemKey(items[n], k, json) {
      ItemsKeyOfLast(items, k, json);
    }
  }

  lemma LastItemKey(item: Item, rest: seq<string>, json: Json)
    requires |rest| >= 2 && ItemAt(item, rest[1..], json)
    ensures Join(rest, '.') == rest[0] + "." + Join(rest[1..], '.') && ItemKey(item, Join(rest[1..], '.'), json)
  {
    hide ItemAt, Join;
    assert rest == [rest[0]] + rest[1..];
    JoinMore(rest[0], rest[1..]);
  }

  lemma ItemsKeyOfLast(items: seq<Item>, k: string, json: Json)
    requires items != [] && ItemKey(items[|items| - 1], k, json)
    ensures ItemsKey(items, Decimal(|items| - 1) + "." + k, json)
  {
    hide ItemsAt, ItemAt, Join, Decimal;
    var n := |items| - 1;
    var rest :| ItemAt(items[n], rest, json) && rest != [] && k == Join(rest, '.');
    var path := [Decimal(n)] + rest;
    assert path[1..] == rest;
    JoinMore(Decimal(n), rest);
    ItemsAtLast(items, path, json);
  }

  lemma {:induction false} ItemsEmitted(items: seq<Item>, key: string, json: Json)
    ensures Entry(key, json) in EmitItems("", items) <==> ItemsKey(items, key, json)
    decreases items
  {
    hide EmitItem, ItemsKey, ItemKey;
    if items == [] {
      NoItemsKey(key, json);
    } else {
      var n := |items| - 1;
      ItemsEmitted(items[..n], key, json);
      assert "" + Decimal(n) + "." == Decimal(n) + ".";
      ItemIsUnder(n, items[n]);
      InConcat(Entry(key, json), EmitItems("", items[..n]), EmitItem(Decimal(n) + ".", items[n]));
      InPrefixed(Decimal(n) + ".", EmitItem("", items[n]), key, json);
      forall k
        ensures Entry(k, json) in EmitItem("", items[n]) <==> ItemKey(items[n], k, json)
      {
        ItemEmitted(items[n], k, json);
      }
      ItemsKeyLast(items, key, json);
    }
  }

  lemma NoItemsKey(key: string, json: Json)
    ensures !ItemsKey([], key, json)
  {
  }

  lemma {:induction false} ItemEmitted(item: Item, key: string, json: Json)
    ensures Entry(key, json) in EmitItem("", item) <==> ItemKey(item, key, json)
    decreases item
  {
    match item
    case Line(text, draw) =>
      JoinMore(Decimal(draw), []);
      assert [Decimal(draw)] + [] == [Decimal(draw)] && "" + Decimal(draw) == Decimal(draw);
      if Entry(key, json) in EmitItem("", item) {
        assert ItemAt(item, [Decimal(draw)], json);
      }
    case Nested(attrs) =>
      hide AttrsAt, Join;
      AttrsEmitted(attrs, key, json);
      if path :| AttrsAt(attrs, path, json) && path != [] && key == Join(path, '.') {
        assert ItemAt(item, path, json);
      }
    case Other(_) =>
  }

  // A key of the converted dictionary is a path through the tree, with dots
  // between its parts, and its value is what the path leads to.
  lemma KeysArePaths(attrs: Dict<Value>, key: string, json: Json)
    requires WellNamed(attrs)
    ensures var converted := Conversion(Nested(attrs), "");
            && (converted.Some? <==> CountAttrs(attrs).others == 0)
            && (converted.Some? ==>
                  (Lookup(converted.value, key) == Some(json) <==> AttrsKey(attrs, key, json)))
  {
    hide EmitAttrs, AttrsKey, PutAll;
    ConvertedExactly(attrs);
    FlatteningIsInjective(attrs);
    AttrsDistinct(attrs);
    AttrsEmitted(attrs, key, json);
    MemberIsLookup(EmitAttrs("", attrs), Entry(key, json));
    AbsentLookup(EmitAttrs("", attrs), key);
  }

  lemma AbsentLookup(d: Dict<Json>, key: string)
    ensures key !in Keys(d) ==> Lookup(d, key) == None
  {
  }
}
