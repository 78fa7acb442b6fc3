/**
 * A JavaScript `Map<string, V[]>` filled by the idiom both compilers use:
 *
 *     const xs = m.get(k) || [];  xs.push(v);  m.set(k, xs);
 *
 * A JavaScript `Map` iterates its keys in insertion order, and `set` on a key that is
 * already present keeps its position, so the model keeps the key order beside the map.
 */
module OrderedGroups {

  datatype Groups<V> = Groups(order: seq<string>, members: map<string, seq<V>>)

  function Empty<V>(): Groups<V> {
    Groups([], map[])
  }

  /** One step of the idiom: push `v` onto the list under `k`, creating it at the end if new. */
  function Add<V>(g: Groups<V>, k: string, v: V): Groups<V> {
    var existing := if k in g.members then g.members[k] else [];
    Groups(if k in g.members then g.order else g.order + [k], g.members[k := existing + [v]])
  }

  /** The map after adding every (key, value) pair in order. */
  function Build<V>(ps: seq<(string, V)>): Groups<V>
    decreases |ps|
  {
    if |ps| == 0 then Empty()
    else Add(Build(ps[..|ps| - 1]), ps[|ps| - 1].0, ps[|ps| - 1].1)
  }

  function Keys<V>(ps: seq<(string, V)>): (ks: seq<string>)
    ensures |ks| == |ps|
    ensures forall i :: 0 <= i < |ps| ==> ks[i] == ps[i].0
  {
    seq(|ps|, i requires 0 <= i < |ps| => ps[i].0)
  }

  /** The values paired with `k`, in input order: what a group should hold. */
  function ValuesFor<V>(ps: seq<(string, V)>, k: string): seq<V>
    decreases |ps|
  {
    if |ps| == 0 then []
    else ValuesFor(ps[..|ps| - 1], k) + (if ps[|ps| - 1].0 == k then [ps[|ps| - 1].1] else [])
  }

  predicate NoDuplicates<T(==)>(s: seq<T>) {
    forall i, j :: 0 <= i < j < |s| ==> s[i] != s[j]
  }

  /** The position of the first occurrence of `k`. */
  function FirstIndex(ks: seq<string>, k: string): (i: nat)
    requires k in ks
    ensures i < |ks| && ks[i] == k
    ensures forall j :: 0 <= j < i ==> ks[j] != k
  {
    if ks[0] == k then 0 else 1 + FirstIndex(ks[1..], k)
  }

  /** Sum of the group sizes along `order`. */
  function SizeSum<V>(order: seq<string>, members: map<string, seq<V>>): nat
    decreases |order|
  {
    if |order| == 0 then 0
    else
      var k := order[|order| - 1];
      SizeSum(order[..|order| - 1], members) + (if k in members then |members[k]| else 0)
  }

  /** Keys listed once each, exactly the keys of the map, and no empty group. */
  ghost predicate WellFormed<V>(g: Groups<V>) {
    && NoDuplicates(g.order)
    && (forall k :: k in g.members <==> k in g.order)
    && (forall k :: k in g.members ==> |g.members[k]| > 0)
  }

  lemma {:induction false} BuildWellFormed<V>(ps: seq<(string, V)>)
    ensures WellFormed(Build(ps))
    decreases |ps|
  {
    if |ps| > 0 {
      BuildWellFormed(ps[..|ps| - 1]);
    }
  }

  lemma {:induction false} BuildKeys<V>(ps: seq<(string, V)>)
    ensures forall k :: k in Build(ps).order <==> k in Keys(ps)
    decreases |ps|
  {
    if |ps| > 0 {
      var init := ps[..|ps| - 1];
      BuildKeys(init);
      BuildWellFormed(init);
      assert Keys(ps) == Keys(init) + [ps[|ps| - 1].0];
    }
  }

  lemma {:induction false} FirstIndexSnoc(ks: seq<string>, x: string, k: string)
    requires k in ks + [x]
    ensures k in ks ==> FirstIndex(ks + [x], k) == FirstIndex(ks, k)
    ensures k !in ks ==> FirstIndex(ks + [x], k) == |ks|
    decreases |ks|
  {
    if |ks| > 0 && ks[0] != k {
      assert (ks + [x])[1..] == ks[1..] + [x];
      FirstIndexSnoc(ks[1..], x, k);
    }
  }

  /** Keys come out in the order of their first appearance in the input. */
  lemma {:induction false} BuildFirstAppearance<V>(ps: seq<(string, V)>)
    ensures forall k :: k in Build(ps).order <==> k in Keys(ps)
    ensures forall p, q :: 0 <= p < q < |Build(ps).order| ==>
              FirstIndex(Keys(ps), Build(ps).order[p]) < FirstIndex(Keys(ps), Build(ps).order[q])
    decreases |ps|
  {
    BuildKeys(ps);
    if |ps| > 0 {
      var init := ps[..|ps| - 1];
      var k := ps[|ps| - 1].0;
      var g0 := Build(init);
      BuildFirstAppearance(init);
      BuildWellFormed(init);
      assert Keys(ps) == Keys(init) + [k];
      assert Build(ps).order == if k in g0.members then g0.order else g0.order + [k];
      FirstAppearanceStep(Keys(init), k, g0.order, Build(ps).order);
    }
  }

  /** Adding one key to the input keeps first-appearance order, whether or not the key is new. */
  lemma FirstAppearanceStep(ks: seq<string>, k: string, order0: seq<string>, order: seq<string>)
    requires forall x :: x in order0 <==> x in ks
    requires forall p, q :: 0 <= p < q < |order0| ==> FirstIndex(ks, order0[p]) < FirstIndex(ks, order0[q])
    requires (k in ks && order == order0) || (k !in ks && order == order0 + [k])
    ensures forall x :: x in order ==> x in ks + [k]
    ensures forall p, q :: 0 <= p < q < |order| ==> FirstIndex(ks + [k], order[p]) < FirstIndex(ks + [k], order[q])
  {
    forall p, q | 0 <= p < q < |order|
      ensures FirstIndex(ks + [k], order[p]) < FirstIndex(ks + [k], order[q])
    {
      assert order[p] == order0[p];
      FirstIndexSnoc(ks, k, order[p]);
      FirstIndexSnoc(ks, k, order[q]);
      if q < |order0| {
        assert order[q] == order0[q];
      }
    }
  }

  /** Each group holds exactly the values paired with its key, in input order. */
  lemma {:induction false} BuildMembers<V>(ps: seq<(string, V)>)
    ensures forall k :: k in Build(ps).members ==> Build(ps).members[k] == ValuesFor(ps, k)
    ensures forall k :: k !in Build(ps).members ==> ValuesFor(ps, k) == []
    decreases |ps|
  {
    if |ps| > 0 {
      var init := ps[..|ps| - 1];
      BuildMembers(init);
      BuildWellFormed(init);
      var g := Build(ps);
      forall k | k in g.members
        ensures g.members[k] == ValuesFor(ps, k)
      {
        if k != ps[|ps| - 1].0 {
          assert k in Build(init).members;
        }
      }
    }
  }

  lemma {:induction false} SizeSumSkip<V>(order: seq<string>, members: map<string, seq<V>>, k: string, xs: seq<V>)
    requires k !in order
    ensures SizeSum(order, members[k := xs]) == SizeSum(order, members)
    decreases |order|
  {
    if |order| > 0 {
      SizeSumSkip(order[..|order| - 1], members, k, xs);
    }
  }

  lemma {:induction false} SizeSumGrow<V>(order: seq<string>, members: map<string, seq<V>>, k: string, v: V)
    requires NoDuplicates(order) && k in order && k in members
    ensures SizeSum(order, members[k := members[k] + [v]]) == SizeSum(order, members) + 1
    decreases |order|
  {
    var init := order[..|order| - 1];
    if order[|order| - 1] == k {
      assert k !in init;
      SizeSumSkip(init, members, k, members[k] + [v]);
    } else {
      assert k in init;
      SizeSumGrow(init, members, k, v);
    }
  }

  /** Every input pair lands in exactly one group: the group sizes add up to the input length. */
  lemma {:induction false} BuildTotal<V>(ps: seq<(string, V)>)
    ensures SizeSum(Build(ps).order, Build(ps).members) == |ps|
    decreases |ps|
  {
    if |ps| > 0 {
      var init := ps[..|ps| - 1];
      var (k, v) := ps[|ps| - 1];
      var g0 := Build(init);
      assert Build(ps) == Add(g0, k, v);
      BuildTotal(init);
      BuildWellFormed(init);
      if k in g0.members {
        SizeSumGrow(g0.order, g0.members, k, v);
      } else {
        assert k !in g0.order;
        SizeSumSkip(g0.order, g0.members, k, [v]);
        var o := g0.order + [k];
        assert [] + [v] == [v];
        assert Add(g0, k, v) == Groups(o, g0.members[k := [v]]);
        assert o[..|o| - 1] == g0.order;
        assert SizeSum(o, g0.members[k := [v]]) == SizeSum(g0.order, g0.members[k := [v]]) + 1;
      }
    }
  }

  /** Every input value lands in the group of its key. */
  lemma {:induction false} ValuesForContains<V>(ps: seq<(string, V)>, i: int)
    requires 0 <= i < |ps|
    ensures ps[i].1 in ValuesFor(ps, ps[i].0)
    decreases |ps|
  {
    if i < |ps| - 1 {
      ValuesForContains(ps[..|ps| - 1], i);
    }
  }

  /** Every value in a group came from an input pair with that key. */
  lemma {:induction false} ValuesForOrigin<V>(ps: seq<(string, V)>, k: string, v: V)
    requires v in ValuesFor(ps, k)
    ensures exists j :: 0 <= j < |ps| && ps[j] == (k, v)
    decreases |ps|
  {
    var init := ps[..|ps| - 1];
    if v in ValuesFor(init, k) {
      ValuesForOrigin(init, k, v);
      var j :| 0 <= j < |init| && init[j] == (k, v);
      assert ps[j] == (k, v);
    } else {
      assert ps[|ps| - 1] == (k, v);
    }
  }

  /** The keys in the order all map to a group. */
  lemma BuildOrderInMembers<V>(ps: seq<(string, V)>)
    ensures forall k :: k in Build(ps).order ==> k in Build(ps).members
  {
    BuildWellFormed(ps);
  }
}
