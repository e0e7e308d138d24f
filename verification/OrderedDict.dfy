/** Insertion-ordered dictionaries with string keys, and ordered sets of names.
    Assigning an existing key keeps its position; a new key goes to the end. */
module OrderedDict {
  import opened Text

  datatype Entry<+V> = Entry(key: string, value: V)

  type Dict<+V> = seq<Entry<V>>

  function Keys<V>(d: Dict<V>): (ks: seq<string>)
    ensures |ks| == |d| && forall i :: 0 <= i < |d| ==> ks[i] == d[i].key
  {
    seq(|d|, i requires 0 <= i < |d| => d[i].key)
  }

  predicate Unique(ks: seq<string>) {
    forall i, j :: 0 <= i < j < |ks| ==> ks[i] != ks[j]
  }

  function ToSet(ks: seq<string>): set<string> {
    set k | k in ks
  }

  // Position of the first entry for k at or after position i, or |d|.
  function FindFrom<V>(d: Dict<V>, k: string, i: nat): (r: nat)
    requires i <= |d|
    ensures i <= r <= |d|
    ensures forall j :: i <= j < r ==> d[j].key != k
    ensures r < |d| ==> d[r].key == k
    decreases |d| - i
  {
    if i == |d| || d[i].key == k then i else FindFrom(d, k, i + 1)
  }

  function Find<V>(d: Dict<V>, k: string): (i: nat)
    ensures i <= |d|
    ensures forall j :: 0 <= j < i ==> d[j].key != k
    ensures i < |d| ==> d[i].key == k
    ensures k in Keys(d) <==> i < |d|
  {
    assert forall j :: 0 <= j < |d| ==> Keys(d)[j] == d[j].key;
    FindFrom(d, k, 0)
  }

  function Lookup<V>(d: Dict<V>, k: string): Option<V> {
    if Find(d, k) < |d| then Some(d[Find(d, k)].value) else None
  }

  function Put<V>(d: Dict<V>, k: string, v: V): (r: Dict<V>)
    ensures Keys(r) == if k in Keys(d) then Keys(d) else Keys(d) + [k]
  {
    var i := Find(d, k);
    if i < |d| then d[i := Entry(k, v)] else d + [Entry(k, v)]
  }

  // All entries but the one for k, in their old order.
  function Delete<V>(d: Dict<V>, k: string): (r: Dict<V>)
    ensures |r| <= |d|
  {
    if d == [] then [] else
      Delete(d[..|d| - 1], k) + (if d[|d| - 1].key == k then [] else [d[|d| - 1]])
  }

  function PutAll<V>(d: Dict<V>, es: Dict<V>): Dict<V> {
    if es == [] then d else
      var rest := PutAll(d, es[..|es| - 1]);
      Put(rest, es[|es| - 1].key, es[|es| - 1].value)
  }

  // The entries whose key is kept, in their old order.
  function Select<V>(d: Dict<V>, keep: set<string>): Dict<V> {
    if d == [] then [] else
      Select(d[..|d| - 1], keep) + (if d[|d| - 1].key in keep then [d[|d| - 1]] else [])
  }

  // The names that are kept, in their old order.
  function Retain(ms: seq<string>, keep: set<string>): seq<string> {
    if ms == [] then [] else
      Retain(ms[..|ms| - 1], keep) + (if ms[|ms| - 1] in keep then [ms[|ms| - 1]] else [])
  }

  // All names but m, in their old order.
  function Remove(ms: seq<string>, m: string): seq<string> {
    Retain(ms, ToSet(ms) - {m})
  }

  function Add(ms: seq<string>, m: string): seq<string> {
    if m in ms then ms else ms + [m]
  }

  function AddAll(ms: seq<string>, hs: seq<string>): seq<string> {
    if hs == [] then ms else Add(AddAll(ms, hs[..|hs| - 1]), hs[|hs| - 1])
  }

  // ----- single operations

  lemma FindIs<V>(d: Dict<V>, k: string, i: nat)
    requires i <= |d| && forall j :: 0 <= j < i ==> d[j].key != k
    requires i < |d| ==> d[i].key == k
    ensures Find(d, k) == i
  {
  }

  lemma LookupPut<V>(d: Dict<V>, k: string, v: V, q: string)
    ensures Lookup(Put(d, k, v), q) == if q == k then Some(v) else Lookup(d, q)
  {
    var r := Put(d, k, v);
    FindIs(r, q, if Find(d, q) == |d| && q != k then |r| else Find(d, q));
  }

  lemma UniqueFind<V>(d: Dict<V>, i: nat)
    requires Unique(Keys(d)) && i < |d|
    ensures Find(d, d[i].key) == i && Lookup(d, d[i].key) == Some(d[i].value)
  {
    forall j | 0 <= j < i
      ensures d[j].key != d[i].key
    {
      assert Keys(d)[j] != Keys(d)[i];
    }
    FindIs(d, d[i].key, i);
  }

  lemma PutMembers<V>(d: Dict<V>, k: string, v: V)
    requires Unique(Keys(d))
    ensures forall e :: e in Put(d, k, v) <==> e == Entry(k, v) || (e in d && e.key != k)
  {
    var i, r := Find(d, k), Put(d, k, v);
    assert r[i] == Entry(k, v);
    forall e | e in d && e.key != k
      ensures e in r
    {
      var j :| 0 <= j < |d| && d[j] == e;
      assert r[j] == e;
    }
    forall j | 0 <= j < |r| && j != i
      ensures r[j] in d && r[j].key != k
    {
      assert r[j] == d[j];
      assert i < |d| ==> Keys(d)[j] != Keys(d)[i];
    }
  }

  lemma {:induction false} DeleteMembers<V>(d: Dict<V>, k: string)
    ensures forall e :: e in Delete(d, k) <==> e in d && e.key != k
  {
    if d != [] {
      var init, last := d[..|d| - 1], d[|d| - 1];
      DeleteMembers(init, k);
      assert d == init + [last];
    }
  }

  lemma KeyOfMember<V>(d: Dict<V>, e: Entry<V>)
    requires e in d
    ensures e.key in Keys(d)
    ensures Unique(Keys(d)) ==> forall x :: x in d && x.key == e.key ==> x == e
  {
    var i :| 0 <= i < |d| && d[i] == e;
    assert Keys(d)[i] == e.key;
    forall x | Unique(Keys(d)) && x in d && x.key == e.key
      ensures x == e
    {
      var j :| 0 <= j < |d| && d[j] == x;
      UniqueFind(d, i);
      UniqueFind(d, j);
    }
  }

  lemma {:induction false} DeleteIsSelect<V>(d: Dict<V>, k: string, keep: set<string>)
    requires forall i :: 0 <= i < |d| ==> (d[i].key in keep <==> d[i].key != k)
    ensures Delete(d, k) == Select(d, keep)
  {
    if d != [] {
      DeleteIsSelect(d[..|d| - 1], k, keep);
    }
  }

  lemma DeleteKeys<V>(d: Dict<V>, k: string)
    ensures Unique(Keys(d)) ==> Unique(Keys(Delete(d, k)))
    ensures forall q :: q in Keys(Delete(d, k)) <==> q in Keys(d) && q != k
  {
    var keep := ToSet(Keys(d)) - {k};
    forall i | 0 <= i < |d|
      ensures d[i].key in keep <==> d[i].key != k
    {
      assert Keys(d)[i] == d[i].key;
    }
    DeleteIsSelect(d, k, keep);
    SelectKeys(d, keep);
    RetainMembers(Keys(d), keep);
  }

  lemma MemberIsLookup<V>(d: Dict<V>, e: Entry<V>)
    requires Unique(Keys(d))
    ensures e in d <==> e.key in Keys(d) && Lookup(d, e.key) == Some(e.value)
  {
    if e in d {
      var i :| 0 <= i < |d| && d[i] == e;
      UniqueFind(d, i);
      assert Keys(d)[i] == e.key;
    }
    if e.key in Keys(d) && Lookup(d, e.key) == Some(e.value) {
      assert d[Find(d, e.key)] == e;
    }
  }

  // ----- membership and uniqueness

  lemma {:induction false} RetainMembers(ms: seq<string>, keep: set<string>)
    ensures forall x :: x in Retain(ms, keep) <==> x in ms && x in keep
    ensures Unique(ms) ==> Unique(Retain(ms, keep))
  {
    if ms != [] {
      var init, last := ms[..|ms| - 1], ms[|ms| - 1];
      RetainMembers(init, keep);
      assert ms == init + [last];
    }
  }

  lemma {:induction false} AddAllMembers(ms: seq<string>, hs: seq<string>)
    ensures forall x :: x in AddAll(ms, hs) <==> x in ms || x in hs
    ensures Unique(ms) ==> Unique(AddAll(ms, hs))
    ensures ms <= AddAll(ms, hs)
  {
    if hs != [] {
      var init, last := hs[..|hs| - 1], hs[|hs| - 1];
      AddAllMembers(ms, init);
      assert hs == init + [last];
    }
  }

  lemma {:induction false} AddAllPresent(ms: seq<string>, hs: seq<string>)
    requires forall h :: h in hs ==> h in ms
    ensures AddAll(ms, hs) == ms
  {
    if hs != [] {
      AddAllPresent(ms, hs[..|hs| - 1]);
    }
  }

  lemma {:induction false} RetainAll(ms: seq<string>, keep: set<string>)
    requires forall m :: m in ms ==> m in keep
    ensures Retain(ms, keep) == ms
  {
    if ms != [] {
      RetainAll(ms[..|ms| - 1], keep);
    }
  }

  lemma {:induction false} RetainConcat(ms: seq<string>, ns: seq<string>, keep: set<string>)
    ensures Retain(ms + ns, keep) == Retain(ms, keep) + Retain(ns, keep)
  {
    if ns == [] {
      assert ms + ns == ms;
    } else {
      RetainConcat(ms, ns[..|ns| - 1], keep);
      assert (ms + ns)[..|ms + ns| - 1] == ms + ns[..|ns| - 1];
    }
  }

  lemma RetainOne(m: string, keep: set<string>)
    ensures Retain([m], keep) == if m in keep then [m] else []
  {
    assert [m][..0] == [];
  }

  lemma RetainBetween(front: seq<string>, m: string, back: seq<string>, keep: set<string>)
    requires m !in keep
    requires forall x :: x in front || x in back ==> x in keep
    ensures Retain(front + [m] + back, keep) == front + back
  {
    hide Retain;
    RetainConcat(front + [m], back, keep);
    RetainConcat(front, [m], keep);
    RetainOne(m, keep);
    RetainAll(front, keep);
    RetainAll(back, keep);
  }

  lemma RemoveBetween(front: seq<string>, m: string, back: seq<string>)
    requires m !in front && m !in back
    ensures Remove(front + [m] + back, m) == front + back
  {
    hide Retain;
    var all := front + [m] + back;
    forall x | x in front || x in back
      ensures x in ToSet(all) - {m}
    {
      assert x in all;
    }
    RetainBetween(front, m, back, ToSet(all) - {m});
  }

  // Retain looks only at whether the names it meets are kept.
  lemma {:induction false} RetainSame(ms: seq<string>, keep: set<string>, keep': set<string>)
    requires forall m :: m in ms ==> (m in keep <==> m in keep')
    ensures Retain(ms, keep) == Retain(ms, keep')
  {
    if ms != [] {
      RetainSame(ms[..|ms| - 1], keep, keep');
    }
  }

  lemma {:induction false} RetainTwice(ms: seq<string>, first: set<string>, second: set<string>)
    ensures Retain(Retain(ms, first), second) == Retain(ms, first * second)
  {
    if ms != [] {
      var init, last := ms[..|ms| - 1], ms[|ms| - 1];
      RetainTwice(init, first, second);
      if last in first {
        var kept := Retain(init, first) + [last];
        assert Retain(ms, first) == kept && kept[..|kept| - 1] == Retain(init, first);
        assert Retain(kept, second) == Retain(kept[..|kept| - 1], second) + (if last in second then [last] else []);
      } else {
        assert Retain(ms, first) == Retain(init, first);
      }
    }
  }

  // Keeping names of a prefix gives a prefix of the kept names.
  lemma {:induction false} RetainPrefix(ms: seq<string>, n: nat, keep: set<string>)
    requires n <= |ms|
    ensures Retain(ms[..n], keep) <= Retain(ms, keep)
    ensures |Retain(ms[..n], keep)| <= n
  {
    if n == |ms| {
      assert ms[..n] == ms;
      RetainLength(ms, keep);
    } else {
      RetainPrefix(ms[..|ms| - 1], n, keep);
      assert ms[..|ms| - 1][..n] == ms[..n];
    }
  }

  lemma {:induction false} RetainLength(ms: seq<string>, keep: set<string>)
    ensures |Retain(ms, keep)| <= |ms|
  {
    if ms != [] {
      RetainLength(ms[..|ms| - 1], keep);
    }
  }

  // Adding a prefix of the order to a group that is a prefix of the same order
  // leaves the longer of the two.
  lemma {:induction false} AddPrefixToPrefix(order: seq<string>, k: nat, n: nat)
    requires Unique(order) && k <= |order| && n <= |order|
    ensures AddAll(order[..k], order[..n]) == order[..if k < n then n else k]
  {
    if n > 0 {
      AddPrefixToPrefix(order, k, n - 1);
      assert order[..n][..n - 1] == order[..n - 1];
      if n > k {
        assert order[n - 1] !in order[..n - 1];
      } else {
        assert order[n - 1] == order[..k][n - 1];
      }
    }
  }

  // ----- dictionaries against key sequences

  lemma {:induction false} SelectKeys<V>(d: Dict<V>, keep: set<string>)
    ensures Keys(Select(d, keep)) == Retain(Keys(d), keep)
  {
    if d == [] {
      assert Keys(d) == [];
    } else {
      SelectKeys(d[..|d| - 1], keep);
      assert Keys(d)[..|d| - 1] == Keys(d[..|d| - 1]);
    }
  }

  lemma {:induction false} SelectAll<V>(d: Dict<V>, keep: set<string>)
    requires forall i :: 0 <= i < |d| ==> d[i].key in keep
    ensures Select(d, keep) == d
  {
    if d != [] {
      SelectAll(d[..|d| - 1], keep);
    }
  }

  lemma {:induction false} SelectTwice<V>(d: Dict<V>, first: set<string>, second: set<string>)
    ensures Select(Select(d, first), second) == Select(d, first * second)
  {
    if d != [] {
      var init, last := d[..|d| - 1], d[|d| - 1];
      SelectTwice(init, first, second);
      if last.key in first {
        var kept := Select(init, first) + [last];
        assert Select(d, first) == kept && kept[..|kept| - 1] == Select(init, first);
        assert Select(kept, second) == Select(kept[..|kept| - 1], second) + (if last.key in second then [last] else []);
      } else {
        assert Select(d, first) == Select(init, first);
      }
    }
  }

  lemma {:induction false} SelectSame<V>(d: Dict<V>, keep: set<string>, keep': set<string>)
    requires forall i :: 0 <= i < |d| ==> (d[i].key in keep <==> d[i].key in keep')
    ensures Select(d, keep) == Select(d, keep')
  {
    if d != [] {
      SelectSame(d[..|d| - 1], keep, keep');
    }
  }

  lemma SelectSnoc<V>(d: Dict<V>, e: Entry<V>, keep: set<string>)
    ensures Select(d + [e], keep) == Select(d, keep) + if e.key in keep then [e] else []
  {
    assert (d + [e])[..|d|] == d;
  }

  lemma SelectNone<V>(keep: set<string>)
    ensures Select<V>([], keep) == []
  {
  }

  lemma {:induction false} SelectConcat<V>(a: Dict<V>, b: Dict<V>, keep: set<string>)
    ensures Select(a + b, keep) == Select(a, keep) + Select(b, keep)
  {
    hide Select;
    if b == [] {
      assert a + b == a;
      SelectNone<V>(keep);
    } else {
      var init, last := b[..|b| - 1], b[|b| - 1];
      SelectConcat(a, init, keep);
      assert b == init + [last] && a + b == a + init + [last];
      SelectSnoc(a + init, last, keep);
      SelectSnoc(init, last, keep);
    }
  }

  // Writing a key that is not kept does not change what is kept.
  lemma SelectPut<V>(d: Dict<V>, k: string, v: V, keep: set<string>)
    requires k !in keep
    ensures Select(Put(d, k, v), keep) == Select(d, keep)
  {
    hide Select;
    var i := Find(d, k);
    if i == |d| {
      SelectSnoc(d, Entry(k, v), keep);
    } else {
      var a, b := d[..i], d[i + 1..];
      assert d == a + [d[i]] + b && Put(d, k, v) == a + [Entry(k, v)] + b;
      SelectConcat(a + [d[i]], b, keep);
      SelectConcat(a + [Entry(k, v)], b, keep);
      SelectSnoc(a, d[i], keep);
      SelectSnoc(a, Entry(k, v), keep);
    }
  }

  lemma {:induction false} PutAllKeys<V>(d: Dict<V>, es: Dict<V>)
    ensures Keys(PutAll(d, es)) == AddAll(Keys(d), Keys(es))
  {
    if es == [] {
      assert Keys(es) == [];
    } else {
      PutAllKeys(d, es[..|es| - 1]);
      assert Keys(es)[..|es| - 1] == Keys(es[..|es| - 1]);
    }
  }

  lemma {:induction false} LookupPutAll<V>(d: Dict<V>, es: Dict<V>, k: string)
    requires Unique(Keys(es))
    ensures Lookup(PutAll(d, es), k) == if k in Keys(es) then Lookup(es, k) else Lookup(d, k)
  {
    if es == [] {
      assert Keys(es) == [];
    } else {
      var init, last := es[..|es| - 1], es[|es| - 1];
      assert Keys(es) == Keys(init) + [last.key];
      LookupPutAll(d, init, k);
      LookupPut(PutAll(d, init), last.key, last.value, k);
      UniqueFind(es, |es| - 1);
      if k in Keys(init) {
        var i := Find(init, k);
        assert es[i] == init[i];
        UniqueFind(es, i);
        UniqueFind(init, i);
      }
    }
  }

  // A dictionary is determined by its key order and its lookups.
  lemma SameDict<V>(d: Dict<V>, e: Dict<V>)
    requires Unique(Keys(d)) && Keys(d) == Keys(e)
    requires forall k :: k in Keys(d) ==> Lookup(d, k) == Lookup(e, k)
    ensures d == e
  {
    forall i | 0 <= i < |d|
      ensures d[i] == e[i]
    {
      assert Keys(d)[i] == Keys(e)[i] == d[i].key;
      UniqueFind(d, i);
      UniqueFind(e, i);
    }
  }

  // Writing a whole table over what is left of an older one gives the table
  // itself, provided the surviving keys come first and in the same order.
  lemma PutAllOverPrefix<V>(d: Dict<V>, table: Dict<V>)
    requires Unique(Keys(table)) && Keys(d) <= Keys(table)
    ensures PutAll(d, table) == table
  {
    var order := Keys(table);
    PutAllKeys(d, table);
    AddPrefixToPrefix(order, |d|, |order|);
    assert order[..|d|] == Keys(d) && order[..|order|] == order;
    forall k | k in order
      ensures Lookup(PutAll(d, table), k) == Lookup(table, k)
    {
      LookupPutAll(d, table, k);
    }
    SameDict(table, PutAll(d, table));
  }

  lemma PutAllNone<V>(d: Dict<V>)
    ensures PutAll(d, []) == d
  {
  }

  lemma PutAllSnoc<V>(d: Dict<V>, es: Dict<V>, e: Entry<V>)
    ensures PutAll(d, es + [e]) == Put(PutAll(d, es), e.key, e.value)
  {
    assert (es + [e])[..|es|] == es;
  }

  lemma {:induction false} PutAllConcat<V>(d: Dict<V>, a: Dict<V>, b: Dict<V>)
    ensures PutAll(d, a + b) == PutAll(PutAll(d, a), b)
  {
    hide PutAll, Put;
    if b == [] {
      assert a + b == a;
      PutAllNone(PutAll(d, a));
    } else {
      var init, last := b[..|b| - 1], b[|b| - 1];
      PutAllConcat(d, a, init);
      assert b == init + [last] && a + b == a + init + [last];
      PutAllSnoc(d, a + init, last);
      PutAllSnoc(PutAll(d, a), init, last);
    }
  }

  lemma PutAllUnique<V>(d: Dict<V>, es: Dict<V>)
    requires Unique(Keys(d))
    ensures Unique(Keys(PutAll(d, es)))
  {
    PutAllKeys(d, es);
    AddAllMembers(Keys(d), Keys(es));
  }

  // Overwriting one value of a table before or after it is merged.
  lemma PutThenMerge<V>(d: Dict<V>, c: Dict<V>, k: string, v: V)
    requires Unique(Keys(d)) && Unique(Keys(c))
    ensures PutAll(d, Put(c, k, v)) == Put(PutAll(d, c), k, v)
  {
    hide PutAll, AddAll;
    if k in Keys(c) {
      var left, right := PutAll(d, Put(c, k, v)), Put(PutAll(d, c), k, v);
      PutAllKeys(d, Put(c, k, v));
      PutAllKeys(d, c);
      AddAllMembers(Keys(d), Keys(c));
      forall q | q in Keys(left)
        ensures Lookup(left, q) == Lookup(right, q)
      {
        LookupPutAll(d, Put(c, k, v), q);
        LookupPut(PutAll(d, c), k, v, q);
        LookupPutAll(d, c, q);
        LookupPut(c, k, v, q);
      }
      SameDict(left, right);
    } else {
      PutAllConcat(d, c, [Entry(k, v)]);
      PutAllOne(PutAll(d, c), Entry(k, v));
    }
  }

  lemma PutAllOne<V>(d: Dict<V>, e: Entry<V>)
    ensures PutAll(d, [e]) == Put(d, e.key, e.value)
  {
    assert [e][..0] == [];
  }

  // Merging a table built from entries is writing the entries.
  lemma {:induction false} MergeIsWrite<V>(d: Dict<V>, es: Dict<V>)
    requires Unique(Keys(d))
    ensures PutAll(d, PutAll([], es)) == PutAll(d, es)
  {
    if es != [] {
      var init, last := es[..|es| - 1], es[|es| - 1];
      MergeIsWrite(d, init);
      PutAllUnique([], init);
      PutThenMerge(d, PutAll([], init), last.key, last.value);
    }
  }

  // Entries with distinct keys make a table as they are.
  lemma PutNew<V>(d: Dict<V>, k: string, v: V)
    requires k !in Keys(d)
    ensures Put(d, k, v) == d + [Entry(k, v)]
  {
  }

  lemma {:induction false} WriteDistinct<V>(es: Dict<V>)
    requires Unique(Keys(es))
    ensures PutAll([], es) == es
  {
    if es != [] {
      hide Put;
      var init, last := es[..|es| - 1], es[|es| - 1];
      assert Keys(es) == Keys(init) + [last.key];
      WriteDistinct(init);
      PutNew(init, last.key, last.value);
      assert es == init + [last];
    }
  }

  // ----- picking entries by their keys

  // The entries whose key is picked, under the new key the pick gives.
  function Picked<V>(d: Dict<V>, pick: string -> Option<string>): Dict<V> {
    if d == [] then [] else
      Picked(d[..|d| - 1], pick) +
      match pick(d[|d| - 1].key)
      case Some(k) => [Entry(k, d[|d| - 1].value)]
      case None => []
  }

  ghost predicate Injective(pick: string -> Option<string>) {
    forall a, b :: pick(a).Some? && pick(a) == pick(b) ==> a == b
  }

  lemma PickedSnoc<V>(d: Dict<V>, e: Entry<V>, pick: string -> Option<string>)
    ensures Picked(d + [e], pick) ==
            match pick(e.key)
            case Some(k) => Picked(d, pick) + [Entry(k, e.value)]
            case None => Picked(d, pick)
  {
    assert (d + [e])[..|d|] == d;
  }

  lemma {:induction false} PickedConcat<V>(a: Dict<V>, b: Dict<V>, pick: string -> Option<string>)
    ensures Picked(a + b, pick) == Picked(a, pick) + Picked(b, pick)
  {
    hide Picked;
    if b == [] {
      assert a + b == a;
      PickedNone<V>(pick);
    } else {
      var init, last := b[..|b| - 1], b[|b| - 1];
      PickedConcat(a, init, pick);
      assert b == init + [last] && a + b == a + init + [last];
      PickedSnoc(a + init, last, pick);
      PickedSnoc(init, last, pick);
    }
  }

  lemma {:induction false} PickedFrom<V>(d: Dict<V>, pick: string -> Option<string>, k: string, r: string)
    requires Injective(pick) && pick(k) == Some(r) && forall i :: 0 <= i < |d| ==> d[i].key != k
    ensures forall i :: 0 <= i < |Picked(d, pick)| ==> Picked(d, pick)[i].key != r
  {
    if d != [] {
      PickedFrom(d[..|d| - 1], pick, k, r);
    }
  }

  lemma PutAt<V>(a: Dict<V>, k: string, was: V, b: Dict<V>, v: V)
    requires forall i :: 0 <= i < |a| ==> a[i].key != k
    ensures Put(a + [Entry(k, was)] + b, k, v) == a + [Entry(k, v)] + b
  {
    FindIs(a + [Entry(k, was)] + b, k, |a|);
  }

  // Picking after writing is writing what is picked.
  lemma PickedPut<V>(d: Dict<V>, k: string, v: V, pick: string -> Option<string>)
    requires Injective(pick)
    ensures Picked(Put(d, k, v), pick) ==
            match pick(k)
            case Some(r) => Put(Picked(d, pick), r, v)
            case None => Picked(d, pick)
  {
    hide Picked, Injective;
    var i := Find(d, k);
    if i == |d| {
      PickedSnoc(d, Entry(k, v), pick);
      if pick(k).Some? {
        PickedFrom(d, pick, k, pick(k).value);
        FindIs(Picked(d, pick), pick(k).value, |Picked(d, pick)|);
      }
    } else {
      var a, b := d[..i], d[i + 1..];
      assert d == a + [d[i]] + b && Put(d, k, v) == a + [Entry(k, v)] + b;
      PickedConcat(a + [d[i]], b, pick);
      PickedConcat(a + [Entry(k, v)], b, pick);
      PickedSnoc(a, d[i], pick);
      PickedSnoc(a, Entry(k, v), pick);
      if pick(k).Some? {
        PickedFrom(a, pick, k, pick(k).value);
        PutAt(Picked(a, pick), pick(k).value, d[i].value, Picked(b, pick), v);
      }
    }
  }

  lemma {:induction false} PickedPutAll<V>(es: Dict<V>, pick: string -> Option<string>)
    requires Injective(pick)
    ensures Picked(PutAll([], es), pick) == PutAll([], Picked(es, pick))
  {
    hide Injective, Put, Picked, PutAll;
    PickedNone<V>(pick);
    PutAllNone<V>([]);
    if es != [] {
      var init, last := es[..|es| - 1], es[|es| - 1];
      assert es == init + [last];
      PickedPutAll(init, pick);
      PutAllSnoc([], init, last);
      PickedPut(PutAll([], init), last.key, last.value, pick);
      PickedSnoc(init, last, pick);
      if pick(last.key).Some? {
        PutAllSnoc([], Picked(init, pick), Entry(pick(last.key).value, last.value));
      }
    }
  }

  lemma PickedNone<V>(pick: string -> Option<string>)
    ensures Picked<V>([], pick) == []
  {
  }

  // Writing what was written again changes nothing.
  lemma WriteTwice<V>(es: Dict<V>)
    ensures PutAll([], PutAll([], es)) == PutAll([], es)
  {
    hide PutAll;
    PutAllUnique([], es);
    WriteDistinct(PutAll([], es));
  }
}
