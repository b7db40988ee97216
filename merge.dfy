/** Merging the partial contact maps of several providers into one record per
    contact id. The combiner that turns an id's partial records into one
    contact (`Contact.mergeInPlace`) is not part of this model; it is a
    parameter about which nothing is assumed. */
module ContactMerge {
  import opened ContactModel

  /** The ids that are a key of at least one of the maps. */
  function UnionKeys(all: seq<map<int, Contact>>): (ks: set<int>)
    ensures forall id :: id in ks <==> exists j :: 0 <= j < |all| && id in all[j]
  {
    if all == [] then {}
    else
      var n := |all| - 1;
      assert forall j :: 0 <= j < n ==> all[..n][j] == all[j];
      UnionKeys(all[..n]) + all[n].Keys
  }

  /** The positions, in input order, of the maps that hold `id`. */
  function Holders(all: seq<map<int, Contact>>, id: int): (ps: seq<nat>)
    ensures forall t :: 0 <= t < |ps| ==> ps[t] < |all| && id in all[ps[t]]
    ensures forall t, u :: 0 <= t < u < |ps| ==> ps[t] < ps[u]
    ensures forall j :: 0 <= j < |all| && id in all[j] ==> j in ps
  {
    if all == [] then []
    else
      var n := |all| - 1;
      Holders(all[..n], id) + (if id in all[n] then [n] else [])
  }

  /** The records of `id`, one from each map that holds it, in input order:
      the list the merger hands to the combiner. */
  function Collect(all: seq<map<int, Contact>>, id: int): (cs: seq<Contact>)
    ensures |cs| == |Holders(all, id)|
    ensures forall t :: 0 <= t < |cs| ==> id in all[Holders(all, id)[t]] && cs[t] == all[Holders(all, id)[t]][id]
  {
    if all == [] then []
    else
      var n := |all| - 1;
      Collect(all[..n], id) + (if id in all[n] then [all[n][id]] else [])
  }

  /** The specification of the merge: one entry per id of any map, holding
      `combine` of that id's records in input order (`Collect`). */
  function Merged(all: seq<map<int, Contact>>, combine: seq<Contact> -> Contact): (merged: map<int, Contact>)
  {
    map id | id in UnionKeys(all) :: combine(Collect(all, id))
  }

  /** One call of the combiner: the id it was made for and the list it got. */
  datatype Call = Call(id: int, records: seq<Contact>)

  /** The ids the combiner was called for. */
  ghost function CalledIds(calls: seq<Call>): set<int>
  {
    set t | 0 <= t < |calls| :: calls[t].id
  }

  lemma {:induction false} CalledIdsSnoc(calls: seq<Call>, c: Call)
    ensures CalledIds(calls + [c]) == CalledIds(calls) + {c.id}
  {
    var cs := calls + [c];
    forall k | k in CalledIds(cs) ensures k in CalledIds(calls) + {c.id} {
      var t :| 0 <= t < |cs| && cs[t].id == k;
      if t < |calls| { assert calls[t].id == k; }
    }
    forall k | k in CalledIds(calls) ensures k in CalledIds(cs) {
      var t :| 0 <= t < |calls| && calls[t].id == k;
      assert cs[t].id == k;
    }
    assert cs[|calls|].id == c.id;
  }

  /** The calls are one per id, and each got the id's records from every map. */
  ghost predicate CallsFaithful(calls: seq<Call>, all: seq<map<int, Contact>>)
  {
    && (forall t, u :: 0 <= t < u < |calls| ==> calls[t].id != calls[u].id)
    && (forall t :: 0 <= t < |calls| ==> calls[t].records == Collect(all, calls[t].id))
  }

  lemma {:induction false} UnionKeysSnoc(all: seq<map<int, Contact>>, i: nat)
    requires i < |all|
    ensures UnionKeys(all[..i + 1]) == UnionKeys(all[..i]) + all[i].Keys
  {
    assert all[..i + 1][..i] == all[..i];
  }

  lemma {:induction false} CollectStep(all: seq<map<int, Contact>>, j: nat, id: int)
    requires j < |all|
    ensures Collect(all[..j + 1], id) == Collect(all[..j], id) + (if id in all[j] then [all[j][id]] else [])
  {
    assert all[..j + 1][..j] == all[..j];
  }

  /** The list for `id` is never empty when some map holds `id`. */
  lemma {:induction false} CollectNonEmpty(all: seq<map<int, Contact>>, id: int)
    requires id in UnionKeys(all)
    ensures Collect(all, id) != []
  {
    var j :| 0 <= j < |all| && id in all[j];
    assert j in Holders(all, id);
  }

  /** Gathers the records of `id` from every map, in input order (the inner
      loop of mergeContactsInfo, refilling `contactsToMerge`). */
  method CollectRecords(all: seq<map<int, Contact>>, id: int) returns (toMerge: seq<Contact>)
    ensures toMerge == Collect(all, id)
  {
    toMerge := [];
    var j := 0;
    while j < |all|
      invariant 0 <= j <= |all|
      invariant toMerge == Collect(all[..j], id)
    {
      CollectStep(all, j, id);
      if id in all[j] {
        toMerge := toMerge + [all[j][id]];
      }
      j := j + 1;
    }
    assert all[..j] == all;
  }

  /** The state the merger keeps between steps: the ids in `done` are merged,
      each once, each with its records from every map. */
  ghost predicate Progress(merged: map<int, Contact>, calls: seq<Call>, all: seq<map<int, Contact>>,
                           combine: seq<Contact> -> Contact, done: set<int>)
  {
    && merged.Keys == done == CalledIds(calls)
    && (forall id :: id in merged ==> merged[id] == combine(Collect(all, id)))
    && CallsFaithful(calls, all)
    && (forall t :: 0 <= t < |calls| ==> calls[t].records != [])
  }

  /** A call for an id not called before keeps the log faithful. */
  lemma {:induction false} CallsFaithfulSnoc(calls: seq<Call>, all: seq<map<int, Contact>>, c: Call)
    requires CallsFaithful(calls, all)
    requires c.id !in CalledIds(calls) && c.records == Collect(all, c.id)
    ensures CallsFaithful(calls + [c], all)
  {
    var cs := calls + [c];
    forall t, u | 0 <= t < u < |cs| ensures cs[t].id != cs[u].id {
      if u == |calls| {
        assert cs[t] == calls[t] && calls[t].id in CalledIds(calls);
      }
    }
  }

  lemma {:induction false} ProgressKeys(merged: map<int, Contact>, calls: seq<Call>, all: seq<map<int, Contact>>,
                                        combine: seq<Contact> -> Contact, done: set<int>, id: int)
    requires Progress(merged, calls, all, combine, done)
    ensures merged[id := combine(Collect(all, id))].Keys == done + {id}
                                                  == CalledIds(calls + [Call(id, Collect(all, id))])
  {
    CalledIdsSnoc(calls, Call(id, Collect(all, id)));
  }

  /** A step of `ProgressStep`, split off to keep its proof small; it models
      nothing of its own. */
  lemma ProgressValues(merged: map<int, Contact>, all: seq<map<int, Contact>>,
                       combine: seq<Contact> -> Contact, id: int)
    requires forall k :: k in merged ==> merged[k] == combine(Collect(all, k))
    ensures var m := merged[id := combine(Collect(all, id))];
            forall k :: k in m ==> m[k] == combine(Collect(all, k))
  {
  }

  lemma {:induction false} ProgressNonEmpty(calls: seq<Call>, all: seq<map<int, Contact>>, id: int)
    requires forall t :: 0 <= t < |calls| ==> calls[t].records != []
    requires id in UnionKeys(all)
    ensures var cs := calls + [Call(id, Collect(all, id))];
            forall t :: 0 <= t < |cs| ==> cs[t].records != []
  {
    CollectNonEmpty(all, id);
  }

  /** Once every id of the union is merged, the map is the merge. */
  lemma {:induction false} ProgressComplete(merged: map<int, Contact>, all: seq<map<int, Contact>>,
                                            combine: seq<Contact> -> Contact)
    requires merged.Keys == UnionKeys(all)
    requires forall id :: id in merged ==> merged[id] == combine(Collect(all, id))
    ensures merged == Merged(all, combine)
  {
    var m := Merged(all, combine);
    assert merged.Keys == m.Keys;
    assert forall id :: id in merged ==> merged[id] == m[id];
  }

  /** Merging one more id keeps the merger's state. */
  lemma {:induction false} ProgressStep(merged: map<int, Contact>, calls: seq<Call>, all: seq<map<int, Contact>>,
                                        combine: seq<Contact> -> Contact, done: set<int>, id: int)
    requires Progress(merged, calls, all, combine, done)
    requires id !in done && id in UnionKeys(all)
    ensures Progress(merged[id := combine(Collect(all, id))], calls + [Call(id, Collect(all, id))],
                     all, combine, done + {id})
  {
    ProgressKeys(merged, calls, all, combine, done, id);
    ProgressValues(merged, all, combine, id);
    CallsFaithfulSnoc(calls, all, Call(id, Collect(all, id)));
    ProgressNonEmpty(calls, all, id);
  }

  /** The keys of `m`, each once, in an order of the map's choosing: the
      iteration of `contactsMap.keys`. */
  method KeysOf(m: map<int, Contact>) returns (ks: seq<int>)
    ensures Distinct(ks)
    ensures Elements(ks) == m.Keys
  {
    ks := [];
    var remaining := m.Keys;
    while remaining != {}
      invariant remaining <= m.Keys
      invariant Distinct(ks)
      invariant Elements(ks) == m.Keys - remaining
      decreases remaining
    {
      Inhabited(remaining);
      var k :| k in remaining;
      ElementsSnoc(ks, k);
      ks := ks + [k];
      remaining := remaining - {k};
    }
  }

  /** Set algebra for `MergeKeysOf`'s invariant, split off to keep that proof
      small; it models nothing of its own. */
  lemma Regroup(before: set<int>, visited: set<int>, x: int)
    ensures before + visited + {x} == before + (visited + {x})
  {
  }

  /** The body of the middle loop: `contactId` is skipped when it has been
      merged already, and otherwise its records are collected and combined. */
  method MergeOne(all: seq<map<int, Contact>>, combine: seq<Contact> -> Contact,
                  merged0: map<int, Contact>, ghost calls0: seq<Call>, ghost done: set<int>, contactId: int)
    returns (merged: map<int, Contact>, ghost calls: seq<Call>)
    requires Progress(merged0, calls0, all, combine, done)
    requires contactId in UnionKeys(all)
    ensures Progress(merged, calls, all, combine, done + {contactId})
    ensures contactId in merged0 ==> merged == merged0 && calls == calls0
  {
    merged, calls := merged0, calls0;
    if contactId in merged {
      assert done + {contactId} == done;
      return;
    }
    var contactsToMerge := CollectRecords(all, contactId);
    ProgressStep(merged, calls, all, combine, done, contactId);
    merged := merged[contactId := combine(contactsToMerge)];
    calls := calls + [Call(contactId, contactsToMerge)];
  }

  /** The middle loop of mergeContactsInfo: each key of `all[i]` is merged
      unless it has been merged already. */
  method MergeKeysOf(all: seq<map<int, Contact>>, i: nat, combine: seq<Contact> -> Contact,
                     merged0: map<int, Contact>, ghost calls0: seq<Call>)
    returns (merged: map<int, Contact>, ghost calls: seq<Call>)
    requires i < |all|
    requires Progress(merged0, calls0, all, combine, UnionKeys(all[..i]))
    ensures Progress(merged, calls, all, combine, UnionKeys(all[..i + 1]))
  {
    merged, calls := merged0, calls0;
    UnionKeysSnoc(all, i);
    var keys := KeysOf(all[i]);
    var j := 0;
    while j < |keys|
      invariant 0 <= j <= |keys|
      invariant Progress(merged, calls, all, combine, UnionKeys(all[..i]) + Elements(keys[..j]))
    {
      ElementsPrefix(keys, j);
      Regroup(UnionKeys(all[..i]), Elements(keys[..j]), keys[j]);
      assert keys[j] in UnionKeys(all);
      merged, calls := MergeOne(all, combine, merged, calls, UnionKeys(all[..i]) + Elements(keys[..j]), keys[j]);
      j := j + 1;
    }
    assert keys[..j] == keys;
  }

  /** mergeContactsInfo: walks the maps in order and, within a map, its keys
      in an order of the map's choosing; an id met for the first time gets
      its records from every map combined once, and an id already merged is
      skipped. `calls` logs every call of the combiner. */
  method MergeContactsInfo(all: seq<map<int, Contact>>, combine: seq<Contact> -> Contact)
    returns (merged: map<int, Contact>, ghost calls: seq<Call>)
    ensures merged == Merged(all, combine)
    ensures CallsFaithful(calls, all)
    ensures CalledIds(calls) == UnionKeys(all)
    ensures forall t :: 0 <= t < |calls| ==> calls[t].records != []
  {
    merged := map[];
    calls := [];
    var i := 0;
    while i < |all|
      invariant 0 <= i <= |all|
      invariant Progress(merged, calls, all, combine, UnionKeys(all[..i]))
    {
      merged, calls := MergeKeysOf(all, i, combine, merged, calls);
      i := i + 1;
    }
    assert all[..i] == all;
    ProgressComplete(merged, all, combine);
  }

  /** Collecting over two runs of maps is collecting over each in turn. */
  lemma {:induction false} CollectAppend(a: seq<map<int, Contact>>, b: seq<map<int, Contact>>, id: int)
    ensures Collect(a + b, id) == Collect(a, id) + Collect(b, id)
    decreases |b|
  {
    if b == [] {
      assert a + b == a;
    } else {
      var n := |b| - 1;
      assert (a + b)[..|a + b| - 1] == a + b[..n];
      assert (a + b)[|a + b| - 1] == b[n];
      CollectAppend(a, b[..n], id);
    }
  }

  /** The records collected before the last map and from it. */
  lemma CollectLast(a: seq<map<int, Contact>>, id: int)
    requires a != []
    ensures Collect(a, id) == Collect(a[..|a| - 1], id) + Collect([a[|a| - 1]], id)
  {
    assert a == a[..|a| - 1] + [a[|a| - 1]];
    CollectAppend(a[..|a| - 1], [a[|a| - 1]], id);
  }

  lemma MultisetLast(a: seq<map<int, Contact>>)
    requires a != []
    ensures multiset(a) == multiset(a[..|a| - 1]) + multiset{a[|a| - 1]}
  {
    assert a == a[..|a| - 1] + [a[|a| - 1]];
  }

  /** Taking out the map at position `p`. */
  lemma RemoveAt(b: seq<map<int, Contact>>, p: nat)
    requires p < |b|
    ensures b == b[..p] + [b[p]] + b[p + 1..]
    ensures multiset(b) == multiset(b[..p] + b[p + 1..]) + multiset{b[p]}
  {
    assert b == b[..p] + [b[p]] + b[p + 1..];
  }

  /** The records collected around position `p` and at it. */
  lemma {:induction false} CollectAround(b: seq<map<int, Contact>>, p: nat, id: int)
    requires p < |b|
    ensures multiset(Collect(b, id))
            == multiset(Collect(b[..p] + b[p + 1..], id)) + multiset(Collect([b[p]], id))
  {
    RemoveAt(b, p);
    CollectAppend(b[..p] + [b[p]], b[p + 1..], id);
    CollectAppend(b[..p], [b[p]], id);
    CollectAppend(b[..p], b[p + 1..], id);
  }

  /** The ids merged depend only on which maps there are, not on their order. */
  lemma UnionKeysOrder(a: seq<map<int, Contact>>, b: seq<map<int, Contact>>)
    requires Elements(a) == Elements(b)
    ensures UnionKeys(a) == UnionKeys(b)
  {
    forall id | id in UnionKeys(a) ensures id in UnionKeys(b) {
      var j :| 0 <= j < |a| && id in a[j];
      assert a[j] in Elements(b);
      var k :| 0 <= k < |b| && b[k] == a[j];
    }
    forall id | id in UnionKeys(b) ensures id in UnionKeys(a) {
      var k :| 0 <= k < |b| && id in b[k];
      assert b[k] in Elements(a);
      var j :| 0 <= j < |a| && a[j] == b[k];
    }
  }

  /** Where the last map of `a` sits in a reordering `b` of it, and what is
      left of both without it. */
  lemma Locate(a: seq<map<int, Contact>>, b: seq<map<int, Contact>>) returns (p: nat)
    requires multiset(a) == multiset(b) && a != []
    ensures p < |b| && b[p] == a[|a| - 1]
    ensures multiset(a[..|a| - 1]) == multiset(b[..p] + b[p + 1..])
  {
    var n := |a| - 1;
    var x := a[n];
    MultisetLast(a);
    assert x in multiset(b);
    p :| 0 <= p < |b| && b[p] == x;
    RemoveAt(b, p);
    assert multiset(a[..n]) == multiset(a) - multiset{x};
  }

  /** Reordering the maps only reorders the list each combine call gets. */
  lemma {:induction false} CollectOrder(a: seq<map<int, Contact>>, b: seq<map<int, Contact>>, id: int)
    requires multiset(a) == multiset(b)
    ensures multiset(Collect(a, id)) == multiset(Collect(b, id))
    decreases |a|
  {
    if a != [] {
      var n := |a| - 1;
      var x := a[n];
      var p := Locate(a, b);
      var rest := b[..p] + b[p + 1..];
      CollectOrder(a[..n], rest, id);
      CollectAround(b, p, id);
      CollectLast(a, id);
    }
  }

  /** With a combiner that ignores the order of its list, the merge does not
      depend on the order in which the maps arrive. */
  lemma MergedOrderIndependent(a: seq<map<int, Contact>>, b: seq<map<int, Contact>>,
                               combine: seq<Contact> -> Contact)
    requires multiset(a) == multiset(b)
    requires forall s, t :: multiset(s) == multiset(t) ==> combine(s) == combine(t)
    ensures Merged(a, combine) == Merged(b, combine)
  {
    assert Elements(a) == Elements(b) by {
      forall m ensures m in Elements(a) <==> m in Elements(b) {
        assert m in a <==> m in multiset(a);
      }
    }
    UnionKeysOrder(a, b);
    forall id | id in UnionKeys(a)
      ensures combine(Collect(a, id)) == combine(Collect(b, id))
    {
      CollectOrder(a, b, id);
    }
  }

  /** Merging a single map with a combiner that returns a lone record as it
      is gives that map back. */
  lemma MergeSingle(m: map<int, Contact>, combine: seq<Contact> -> Contact)
    requires forall c :: combine([c]) == c
    ensures Merged([m], combine) == m
  {
    forall id | id in m ensures Collect([m], id) == [m[id]] {
      assert [m][..0] == [];
    }
  }
}
