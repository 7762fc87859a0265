/**
 * The per-chromosome group map `chr_dict` and `filter_pcr_dupes`
 * (allen_deduper.py:96-108), with the first-wins specification they
 * implement.
 */
module Groups {
  import opened SamRecord

  /** The grouping key `(umi, adjusted position, strand)`. */
  datatype Key = Key(umi: string, position: int, strand: Strand)

  /** One alignment line and the key it is grouped under. */
  datatype Entry = Entry(key: Key, line: string)

  /**
   * `chr_dict`: a dict that keeps insertion order, from a key to the list of
   * lines seen under it. `order` is the dict's iteration order.
   */
  datatype Group = Group(order: seq<Key>, lists: map<Key, seq<string>>)
  {
    ghost predicate Valid() {
      (forall k :: k in lists <==> k in order)
      && (forall i, j :: 0 <= i < j < |order| ==> order[i] != order[j])
      && (forall k :: k in lists ==> |lists[k]| > 0)
    }
  }

  const Empty: Group := Group([], map[])

  /** `d[k] = v`: a new key goes last in iteration order, an old key keeps its place. */
  function Put(g: Group, k: Key, v: seq<string>): (h: Group)
    requires g.Valid() && |v| > 0
    ensures h.Valid() && k in h.lists && h.lists[k] == v
    ensures h.order == if k in g.lists then g.order else g.order + [k]
    ensures forall k' :: k' != k ==> (k' in h.lists <==> k' in g.lists)
    ensures forall k' :: k' != k && k' in g.lists ==> h.lists[k'] == g.lists[k']
  {
    if k in g.lists then Group(g.order, g.lists[k := v]) else Group(g.order + [k], g.lists[k := v])
  }

  /**
   * Lines 171-175: append the line to its key's list, creating the list
   * (as the last key) when the key is new.
   */
  function Insert(g: Group, e: Entry): (h: Group)
    requires g.Valid()
    ensures h.Valid()
  {
    if e.key in g.lists then Put(g, e.key, g.lists[e.key] + [e.line]) else Put(g, e.key, [e.line])
  }

  /**
   * Inserting appends the line to its key's list, or gives a new key the
   * one-line list and the last place in iteration order; no other key or
   * list changes.
   */
  lemma InsertLists(g: Group, e: Entry)
    requires g.Valid()
    ensures Insert(g, e).order == if e.key in g.lists then g.order else g.order + [e.key]
    ensures Insert(g, e).lists
      == g.lists[e.key := (if e.key in g.lists then g.lists[e.key] else []) + [e.line]]
  {
    var h := Insert(g, e);
    var v := (if e.key in g.lists then g.lists[e.key] else []) + [e.line];
    var m := g.lists[e.key := v];
    assert h.lists[e.key] == v;
    assert forall k :: k in h.lists <==> k in m;
    assert forall k :: k in h.lists ==> h.lists[k] == m[k];
  }

  /** The group the entries build when inserted one by one into an empty dict. */
  function GroupOf(es: seq<Entry>): (g: Group)
    ensures g.Valid()
  {
    if es == [] then Empty else Insert(GroupOf(es[..|es| - 1]), es[|es| - 1])
  }

  // ---------------------------------------------------------------------
  // filter_pcr_dupes

  /** Every key in order has a non-empty list. */
  predicate Listed(order: seq<Key>, lists: map<Key, seq<string>>) {
    forall k :: k in order ==> k in lists && |lists[k]| > 0
  }

  /** In iteration order, the first line of every key whose UMI is allow-listed. */
  function Emitted(order: seq<Key>, lists: map<Key, seq<string>>, umis: seq<string>): (out: seq<string>)
    requires Listed(order, lists)
    ensures |out| <= |order|
  {
    if order == [] then []
    else
      var k := order[|order| - 1];
      Emitted(order[..|order| - 1], lists, umis) + (if k.umi in umis then [lists[k][0]] else [])
  }

  /** How many keys have a UMI outside the allow-list: one per key, however many lines it holds. */
  function WrongKeys(order: seq<Key>, umis: seq<string>): (n: nat)
    ensures n <= |order|
  {
    if order == [] then 0
    else WrongKeys(order[..|order| - 1], umis) + (if order[|order| - 1].umi in umis then 0 else 1)
  }

  /** Every key is either emitted once or counted once. */
  lemma {:induction false} EmittedPlusWrong(order: seq<Key>, lists: map<Key, seq<string>>, umis: seq<string>)
    requires Listed(order, lists)
    ensures |Emitted(order, lists, umis)| + WrongKeys(order, umis) == |order|
  {
    if order != [] {
      EmittedPlusWrong(order[..|order| - 1], lists, umis);
    }
  }

  /** Only the heads of the lists matter to the filter. */
  lemma {:induction false} EmittedFrame(order: seq<Key>, l1: map<Key, seq<string>>, l2: map<Key, seq<string>>, umis: seq<string>)
    requires Listed(order, l1) && Listed(order, l2)
    requires forall k :: k in order ==> l1[k][0] == l2[k][0]
    ensures Emitted(order, l1, umis) == Emitted(order, l2, umis)
  {
    if order != [] {
      EmittedFrame(order[..|order| - 1], l1, l2, umis);
    }
  }

  /**
   * The script's filter: walk the dict in insertion order, keep the first
   * line of each allow-listed key, count the other keys.
   */
  method FilterPcrDupes(g: Group, umis: seq<string>) returns (deduped: seq<string>, wrongumis: nat)
    requires g.Valid()
    ensures deduped == Emitted(g.order, g.lists, umis)
    ensures wrongumis == WrongKeys(g.order, umis)
  {
    deduped, wrongumis := [], 0;
    for i := 0 to |g.order|
      invariant deduped == Emitted(g.order[..i], g.lists, umis)
      invariant wrongumis == WrongKeys(g.order[..i], umis)
    {
      var key := g.order[i];
      assert g.order[..i + 1][..i] == g.order[..i];
      if key.umi in umis {
        deduped := deduped + [g.lists[key][0]];
      } else {
        wrongumis := wrongumis + 1;
      }
    }
    assert g.order[..|g.order|] == g.order;
  }

  // ---------------------------------------------------------------------
  // First-wins, stated on the entries in arrival order

  function KeysOf(es: seq<Entry>): (ks: set<Key>)
    ensures forall i :: 0 <= i < |es| ==> es[i].key in ks
  {
    if es == [] then {} else {es[0].key} + KeysOf(es[1..])
  }

  /** No key occurs twice. */
  predicate DistinctKeys(es: seq<Entry>) {
    es == [] || (es[0].key !in KeysOf(es[1..]) && DistinctKeys(es[1..]))
  }

  /** The index of the earliest entry with key k. */
  function FirstIndex(es: seq<Entry>, k: Key): (i: nat)
    requires k in KeysOf(es)
    ensures i < |es| && es[i].key == k
    ensures forall j :: 0 <= j < i ==> es[j].key != k
  {
    if es[0].key == k then 0 else 1 + FirstIndex(es[1..], k)
  }

  /** The earliest entry of every key not in seen, in arrival order. */
  function Firsts(seen: set<Key>, es: seq<Entry>): seq<Entry>
    decreases |es|
  {
    if es == [] then []
    else if es[0].key in seen then Firsts(seen, es[1..])
    else [es[0]] + Firsts(seen + {es[0].key}, es[1..])
  }

  function AllowedOnly(xs: seq<Entry>, umis: seq<string>): seq<Entry> {
    if xs == [] then []
    else (if xs[0].key.umi in umis then [xs[0]] else []) + AllowedOnly(xs[1..], umis)
  }

  function Disallowed(xs: seq<Entry>, umis: seq<string>): nat {
    if xs == [] then 0
    else (if xs[0].key.umi in umis then 0 else 1) + Disallowed(xs[1..], umis)
  }

  function Lines(xs: seq<Entry>): seq<string> {
    if xs == [] then [] else [xs[0].line] + Lines(xs[1..])
  }

  /** The entries a chromosome run keeps: the earliest of each allow-listed key. */
  function KeptEntries(es: seq<Entry>, umis: seq<string>): seq<Entry> {
    AllowedOnly(Firsts({}, es), umis)
  }

  function Kept(es: seq<Entry>, umis: seq<string>): seq<string> {
    Lines(KeptEntries(es, umis))
  }

  /** The number of distinct keys in the run whose UMI is not allow-listed. */
  function Wrong(es: seq<Entry>, umis: seq<string>): nat {
    Disallowed(Firsts({}, es), umis)
  }

  lemma {:induction false} KeysOfAppend(a: seq<Entry>, b: seq<Entry>)
    ensures KeysOf(a + b) == KeysOf(a) + KeysOf(b)
  {
    if a == [] {
      assert a + b == b;
    } else {
      assert (a + b)[0] == a[0] && (a + b)[1..] == a[1..] + b;
      KeysOfAppend(a[1..], b);
    }
  }

  lemma {:induction false} AllowedOnlyAppend(a: seq<Entry>, b: seq<Entry>, umis: seq<string>)
    ensures AllowedOnly(a + b, umis) == AllowedOnly(a, umis) + AllowedOnly(b, umis)
    ensures Disallowed(a + b, umis) == Disallowed(a, umis) + Disallowed(b, umis)
  {
    AllowedOnlyConcat(a, b, umis);
    DisallowedConcat(a, b, umis);
  }

  lemma {:induction false} AllowedOnlyConcat(a: seq<Entry>, b: seq<Entry>, umis: seq<string>)
    ensures AllowedOnly(a + b, umis) == AllowedOnly(a, umis) + AllowedOnly(b, umis)
  {
    if a == [] {
      assert a + b == b;
    } else {
      assert (a + b)[0] == a[0] && (a + b)[1..] == a[1..] + b;
      AllowedOnlyConcat(a[1..], b, umis);
      var head := if a[0].key.umi in umis then [a[0]] else [];
      assert head + (AllowedOnly(a[1..], umis) + AllowedOnly(b, umis))
          == (head + AllowedOnly(a[1..], umis)) + AllowedOnly(b, umis);
    }
  }

  lemma {:induction false} DisallowedConcat(a: seq<Entry>, b: seq<Entry>, umis: seq<string>)
    ensures Disallowed(a + b, umis) == Disallowed(a, umis) + Disallowed(b, umis)
  {
    if a == [] {
      assert a + b == b;
    } else {
      assert (a + b)[0] == a[0] && (a + b)[1..] == a[1..] + b;
      DisallowedConcat(a[1..], b, umis);
    }
  }

  lemma {:induction false} LinesAppend(a: seq<Entry>, b: seq<Entry>)
    ensures Lines(a + b) == Lines(a) + Lines(b)
  {
    if a == [] {
      assert a + b == b;
    } else {
      assert (a + b)[0] == a[0] && (a + b)[1..] == a[1..] + b;
      LinesAppend(a[1..], b);
    }
  }

  /** A new entry is a first occurrence exactly when its key has not been seen. */
  lemma {:induction false} FirstsSnoc(seen: set<Key>, es: seq<Entry>, e: Entry)
    ensures Firsts(seen, es + [e])
      == Firsts(seen, es) + (if e.key in seen || e.key in KeysOf(es) then [] else [e])
    decreases |es|
  {
    if es == [] {
      assert es + [e] == [e];
      assert [e][1..] == [];
    } else {
      assert (es + [e])[0] == es[0] && (es + [e])[1..] == es[1..] + [e];
      if es[0].key in seen {
        FirstsSnoc(seen, es[1..], e);
      } else {
        FirstsSnoc(seen + {es[0].key}, es[1..], e);
      }
    }
  }

  /** Inserting under a key already present changes no list head and no order. */
  lemma InsertExisting(g: Group, e: Entry, umis: seq<string>)
    requires g.Valid() && e.key in g.lists
    ensures Insert(g, e).order == g.order
    ensures Emitted(Insert(g, e).order, Insert(g, e).lists, umis) == Emitted(g.order, g.lists, umis)
  {
    EmittedFrame(g.order, g.lists, Insert(g, e).lists, umis);
  }

  /** Inserting under a new key puts it last, with the line as its list head. */
  lemma InsertFresh(g: Group, e: Entry, umis: seq<string>)
    requires g.Valid() && e.key !in g.lists
    ensures Insert(g, e).order == g.order + [e.key]
    ensures Emitted(Insert(g, e).order, Insert(g, e).lists, umis)
      == Emitted(g.order, g.lists, umis) + (if e.key.umi in umis then [e.line] else [])
    ensures WrongKeys(Insert(g, e).order, umis)
      == WrongKeys(g.order, umis) + (if e.key.umi in umis then 0 else 1)
  {
    var h := Insert(g, e);
    InsertLists(g, e);
    assert h.order == g.order + [e.key] && h.lists[e.key] == [e.line];
    assert Listed(g.order, h.lists) && forall k :: k in g.order ==> h.lists[k][0] == g.lists[k][0];
    EmittedFrame(g.order, g.lists, h.lists, umis);
    EmittedSnoc(g.order, e.key, h.lists, umis);
  }

  /** A key added last contributes its head line or one wrong UMI. */
  lemma EmittedSnoc(order: seq<Key>, k: Key, lists: map<Key, seq<string>>, umis: seq<string>)
    requires Listed(order + [k], lists)
    ensures Listed(order, lists)
    ensures Emitted(order + [k], lists, umis)
      == Emitted(order, lists, umis) + (if k.umi in umis then [lists[k][0]] else [])
    ensures WrongKeys(order + [k], umis) == WrongKeys(order, umis) + (if k.umi in umis then 0 else 1)
  {
    assert (order + [k])[..|order|] == order;
  }

  /** The first-wins result of a run grows by the new line exactly when its key is new and allowed. */
  lemma KeptSnoc(es: seq<Entry>, e: Entry, umis: seq<string>)
    ensures Kept(es + [e], umis)
      == Kept(es, umis) + (if e.key !in KeysOf(es) && e.key.umi in umis then [e.line] else [])
    ensures Wrong(es + [e], umis)
      == Wrong(es, umis) + (if e.key !in KeysOf(es) && e.key.umi !in umis then 1 else 0)
    ensures KeysOf(es + [e]) == KeysOf(es) + {e.key}
  {
    KeysOfAppend(es, [e]);
    assert KeysOf([e]) == {e.key};
    FirstsSnoc({}, es, e);
    var f := Firsts({}, es);
    if e.key !in KeysOf(es) {
      AllowedOnlyAppend(f, [e], umis);
      LinesAppend(AllowedOnly(f, umis), AllowedOnly([e], umis));
      assert AllowedOnly([e], umis) == if e.key.umi in umis then [e] else [];
      assert Disallowed([e], umis) == if e.key.umi in umis then 0 else 1;
      assert Lines([e]) == [e.line];
    } else {
      assert Firsts({}, es + [e]) == f + [] == f;
    }
  }

  /**
   * The group map holds exactly the run's keys, and filtering it gives the
   * run's first-wins result: the map is a faithful, order-preserving
   * implementation of "keep the earliest line of each key".
   */
  lemma GroupOfFilter(es: seq<Entry>, umis: seq<string>)
    ensures forall k :: k in GroupOf(es).order <==> k in KeysOf(es)
    ensures Emitted(GroupOf(es).order, GroupOf(es).lists, umis) == Kept(es, umis)
    ensures WrongKeys(GroupOf(es).order, umis) == Wrong(es, umis)
  {
    GroupOfKeys(es);
    GroupOfEmitted(es, umis);
    GroupOfWrong(es, umis);
  }

  lemma {:induction false} GroupOfEmitted(es: seq<Entry>, umis: seq<string>)
    ensures Emitted(GroupOf(es).order, GroupOf(es).lists, umis) == Kept(es, umis)
  {
    if es != [] {
      var p, e := es[..|es| - 1], es[|es| - 1];
      assert es == p + [e];
      GroupOfEmitted(p, umis);
      GroupOfKeys(p);
      var g := GroupOf(p);
      assert GroupOf(es) == Insert(g, e);
      KeptSnoc(p, e, umis);
      if e.key in g.lists {
        InsertExisting(g, e, umis);
      } else {
        InsertFresh(g, e, umis);
      }
    }
  }

  lemma {:induction false} GroupOfWrong(es: seq<Entry>, umis: seq<string>)
    ensures WrongKeys(GroupOf(es).order, umis) == Wrong(es, umis)
  {
    if es != [] {
      var p, e := es[..|es| - 1], es[|es| - 1];
      assert es == p + [e];
      GroupOfWrong(p, umis);
      GroupOfKeys(p);
      var g := GroupOf(p);
      var h := Insert(g, e);
      assert GroupOf(es) == h;
      KeptSnoc(p, e, umis);
      if e.key !in g.lists {
        assert h.order[..|h.order| - 1] == g.order;
      }
    }
  }

  /** The dictionary's keys are the run's keys. */
  lemma {:induction false} GroupOfKeys(es: seq<Entry>)
    ensures forall k :: k in GroupOf(es).lists <==> k in KeysOf(es)
  {
    if es != [] {
      var p, e := es[..|es| - 1], es[|es| - 1];
      assert es == p + [e];
      GroupOfKeys(p);
      KeysOfAppend(p, [e]);
      assert KeysOf([e]) == {e.key};
    }
  }

  lemma {:induction false} FirstsProperties(seen: set<Key>, es: seq<Entry>)
    ensures forall x :: x in Firsts(seen, es) ==>
      x.key !in seen && x.key in KeysOf(es) && x == es[FirstIndex(es, x.key)]
    ensures DistinctKeys(Firsts(seen, es))
    ensures KeysOf(Firsts(seen, es)) == KeysOf(es) - seen
    decreases |es|
  {
    if es != [] {
      var y, r := es[0], es[1..];
      if y.key in seen {
        FirstsProperties(seen, r);
        forall x | x in Firsts(seen, es)
          ensures x == es[FirstIndex(es, x.key)]
        {
          assert x.key != y.key;
          assert es[1 + FirstIndex(r, x.key)] == r[FirstIndex(r, x.key)];
        }
      } else {
        var seen' := seen + {y.key};
        FirstsProperties(seen', r);
        var f := Firsts(seen', r);
        assert Firsts(seen, es) == [y] + f;
        assert ([y] + f)[1..] == f;
        forall x | x in f
          ensures x == es[FirstIndex(es, x.key)]
        {
          assert x.key != y.key;
          assert es[1 + FirstIndex(r, x.key)] == r[FirstIndex(r, x.key)];
        }
      }
    }
  }

  /** The keys of ks whose UMI is allow-listed. */
  function AllowedKeys(ks: set<Key>, umis: seq<string>): set<Key> {
    set k | k in ks && k.umi in umis
  }

  lemma {:induction false} AllowedOnlyKeys(xs: seq<Entry>, umis: seq<string>)
    ensures KeysOf(AllowedOnly(xs, umis)) == AllowedKeys(KeysOf(xs), umis)
  {
    if xs != [] {
      AllowedOnlyKeys(xs[1..], umis);
      var rest := AllowedOnly(xs[1..], umis);
      if xs[0].key.umi in umis {
        assert ([xs[0]] + rest)[1..] == rest;
        assert KeysOf([xs[0]] + rest) == {xs[0].key} + KeysOf(rest);
        assert AllowedKeys(KeysOf(xs), umis) == {xs[0].key} + AllowedKeys(KeysOf(xs[1..]), umis);
      } else {
        assert AllowedOnly(xs, umis) == rest;
        assert AllowedKeys(KeysOf(xs), umis) == AllowedKeys(KeysOf(xs[1..]), umis);
      }
    }
  }

  lemma {:induction false} AllowedOnlyProperties(xs: seq<Entry>, umis: seq<string>)
    ensures forall x :: x in AllowedOnly(xs, umis) ==> x in xs && x.key.umi in umis
    ensures KeysOf(AllowedOnly(xs, umis)) == AllowedKeys(KeysOf(xs), umis)
    ensures DistinctKeys(xs) ==> DistinctKeys(AllowedOnly(xs, umis))
    ensures |AllowedOnly(xs, umis)| + Disallowed(xs, umis) == |xs|
  {
    AllowedOnlyKeys(xs, umis);
    if xs != [] {
      AllowedOnlyProperties(xs[1..], umis);
      var rest := AllowedOnly(xs[1..], umis);
      if xs[0].key.umi in umis {
        assert AllowedOnly(xs, umis) == [xs[0]] + rest;
        assert ([xs[0]] + rest)[1..] == rest;
      } else {
        assert AllowedOnly(xs, umis) == rest;
      }
    }
  }

  /** A run of distinct keys has as many keys as entries. */
  lemma {:induction false} DistinctKeysCount(xs: seq<Entry>)
    requires DistinctKeys(xs)
    ensures |KeysOf(xs)| == |xs|
  {
    if xs != [] {
      DistinctKeysCount(xs[1..]);
    }
  }

  /**
   * First wins: every kept entry is allow-listed and is the earliest entry
   * of its key in the run, no key is kept twice, and every allow-listed key
   * of the run is kept.
   */
  lemma FirstWins(es: seq<Entry>, umis: seq<string>)
    ensures forall x :: x in KeptEntries(es, umis) ==>
      x.key.umi in umis && x.key in KeysOf(es) && x == es[FirstIndex(es, x.key)]
    ensures DistinctKeys(KeptEntries(es, umis))
    ensures KeysOf(KeptEntries(es, umis)) == AllowedKeys(KeysOf(es), umis)
  {
    FirstsProperties({}, es);
    AllowedOnlyProperties(Firsts({}, es), umis);
  }

  /** Every line listed comes from one of the entries. */
  lemma {:induction false} LinesMembers(xs: seq<Entry>)
    ensures forall l :: l in Lines(xs) ==> exists x :: x in xs && x.line == l
  {
    if xs != [] {
      LinesMembers(xs[1..]);
      forall l | l in Lines(xs)
        ensures exists x :: x in xs && x.line == l
      {
        if l != xs[0].line {
          assert Lines(xs) == [xs[0].line] + Lines(xs[1..]);
          assert l in Lines(xs[1..]);
          var x :| x in xs[1..] && x.line == l;
          assert x in xs;
        } else {
          assert xs[0] in xs;
        }
      }
    }
  }

  /** Every kept line is the line of an entry of the run. */
  lemma KeptFrom(es: seq<Entry>, umis: seq<string>)
    ensures forall l :: l in Kept(es, umis) ==> exists x :: x in es && x.line == l
  {
    LinesMembers(KeptEntries(es, umis));
    FirstWins(es, umis);
    forall l | l in Kept(es, umis)
      ensures exists x :: x in es && x.line == l
    {
      var x :| x in KeptEntries(es, umis) && x.line == l;
      assert x == es[FirstIndex(es, x.key)];
    }
  }

  /** Each distinct key of a run either yields one kept line or one wrong-UMI count. */
  lemma KeptPlusWrong(es: seq<Entry>, umis: seq<string>)
    ensures |Kept(es, umis)| + Wrong(es, umis) == |KeysOf(es)|
  {
    var f := Firsts({}, es);
    FirstsProperties({}, es);
    AllowedOnlyProperties(f, umis);
    DistinctKeysCount(f);
    LinesLength(KeptEntries(es, umis));
  }

  lemma {:induction false} LinesLength(xs: seq<Entry>)
    ensures |Lines(xs)| == |xs|
  {
    if xs != [] {
      LinesLength(xs[1..]);
    }
  }

  lemma {:induction false} FirstsOfDistinct(seen: set<Key>, xs: seq<Entry>)
    requires DistinctKeys(xs) && KeysOf(xs) !! seen
    ensures Firsts(seen, xs) == xs
    decreases |xs|
  {
    if xs != [] {
      FirstsOfDistinct(seen + {xs[0].key}, xs[1..]);
    }
  }

  lemma {:induction false} AllowedOnlyOfAllowed(xs: seq<Entry>, umis: seq<string>)
    requires forall x :: x in xs ==> x.key.umi in umis
    ensures AllowedOnly(xs, umis) == xs && Disallowed(xs, umis) == 0
  {
    if xs != [] {
      assert forall x :: x in xs[1..] ==> x in xs;
      AllowedOnlyOfAllowed(xs[1..], umis);
    }
  }

  /** Deduplicating a run's kept entries again changes nothing and counts nothing. */
  lemma KeptIdempotent(es: seq<Entry>, umis: seq<string>)
    ensures KeptEntries(KeptEntries(es, umis), umis) == KeptEntries(es, umis)
    ensures Wrong(KeptEntries(es, umis), umis) == 0
  {
    var k := KeptEntries(es, umis);
    FirstWins(es, umis);
    FirstsOfDistinct({}, k);
    AllowedOnlyOfAllowed(k, umis);
  }

  /**
   * The script files the very first alignment line twice under its key
   * (lines 144-155 and then 158-175). Doubling the first entry of a run
   * changes neither the kept lines nor the count.
   */
  lemma DoubledHead(es: seq<Entry>, umis: seq<string>)
    requires es != []
    ensures Kept([es[0]] + es, umis) == Kept(es, umis)
    ensures Wrong([es[0]] + es, umis) == Wrong(es, umis)
  {
    var k := es[0].key;
    assert {} + {k} == {k};
    assert ([es[0]] + es)[1..] == es;
    assert Firsts({}, [es[0]] + es) == [es[0]] + Firsts({k}, es);
    assert Firsts({k}, es) == Firsts({k}, es[1..]);
    assert Firsts({}, es) == [es[0]] + Firsts({k}, es[1..]);
  }
}
