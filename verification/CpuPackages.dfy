/** `Query::detect_cpu_packages` of src/core/query.cc: cores by package, with the packages renumbered. */
module CpuPackages {
  import opened Deduplication

  /** The cores with this physical package id, in increasing order. */
  function CoresOf(ids: seq<int>, id: int): (r: seq<nat>)
    ensures forall i :: 0 <= i < |r| ==> r[i] < |ids| && ids[r[i]] == id
    ensures Increasing(r)
  {
    if ids == [] then []
    else
      var n := |ids| - 1;
      CoresOf(ids[..n], id) + if ids[n] == id then [n] else []
  }

  predicate Increasing(s: seq<nat>) {
    forall i, j :: 0 <= i < j < |s| ==> s[i] < s[j]
  }

  lemma {:induction false} InCoresOf(ids: seq<int>, id: int, c: nat)
    ensures c in CoresOf(ids, id) <==> c < |ids| && ids[c] == id
  {
    if ids != [] {
      InCoresOf(ids[..|ids| - 1], id, c);
    }
  }

  /** Package p has the cores with the p-th physical id of `order`. */
  ghost predicate Lists(ids: seq<int>, order: seq<int>, packages: map<nat, seq<nat>>) {
    && (forall p: nat :: p in packages <==> p < |order|)
    && (forall p: nat :: p in packages ==> packages[p] == CoresOf(ids, order[p]))
  }

  /** The packages of the readable cores: package p has the cores with the p-th physical id to appear. */
  ghost predicate ArePackages(ids: seq<int>, packages: map<nat, seq<nat>>) {
    Lists(ids, FirstOccurrences(ids), packages)
  }

  /** The renumbering maps each physical id seen to its place in the order of appearance. */
  ghost predicate AreNumbers(ids: seq<int>, numbers: map<int, nat>) {
    var order := FirstOccurrences(ids);
    && |numbers| == |order|
    && (forall id :: id in numbers <==> id in order)
    && (forall id :: id in numbers ==> numbers[id] < |order| && order[numbers[id]] == id)
  }

  ghost predicate AreRead(ids: seq<int>, packages: map<nat, seq<nat>>, numbers: map<int, nat>) {
    ArePackages(ids, packages) && AreNumbers(ids, numbers)
  }

  lemma Unread()
    ensures AreRead([], map[], map[])
  {
  }

  lemma OneMore(ids: seq<int>, n: nat)
    requires n <= |ids|
    ensures if n < |ids| then ids[..n + 1] == ids[..n] + [ids[n]] else ids[..n] == ids
  {
  }

  class Query {
    var result: map<nat, seq<nat>>

    constructor ()
      ensures result == map[]
    {
      result := map[];
    }

    /** `ids` are the physical package ids of the cores 0, 1, … up to the first that cannot be read. What was
        detected once is kept. */
    method DetectCpuPackages(ids: seq<int>)
      modifies this
      ensures old(result) != map[] ==> result == old(result)
      ensures old(result) == map[] ==> ArePackages(ids, result)
    {
      if |result| == 0 {
        assert result == map[];
        ReadCores(ids);
      }
    }

    method ReadCores(ids: seq<int>)
      requires result == map[]
      modifies this
      ensures ArePackages(ids, result)
    {
      var numbers: map<int, nat> := map[];
      var coreId := 0;
      Unread();
      while coreId < |ids|
        invariant coreId <= |ids|
        invariant AreRead(ids[..coreId], result, numbers)
      {
        Step(ids[..coreId], ids[coreId], result, numbers);
        numbers := Emplace(numbers, ids[coreId]);
        AddCore(numbers[ids[coreId]], coreId);
        OneMore(ids, coreId);
        coreId := coreId + 1;
      }
      OneMore(ids, coreId);
    }

    static method Emplace(numbers: map<int, nat>, id: int) returns (r: map<int, nat>)
      ensures r == WithId(numbers, id) && id in r
    {
      r := numbers;
      if id !in r {
        r := r[id := |r|];
      }
    }

    method AddCore(packageId: nat, coreId: nat)
      modifies this
      ensures result == WithCore(old(result), packageId, coreId)
    {
      if packageId !in result {
        result := result[packageId := []];
      }
      result := result[packageId := result[packageId] + [coreId]];
    }
  }

  lemma CoresOfSnoc(ids: seq<int>, id: int, other: int)
    ensures CoresOf(ids + [id], other) == CoresOf(ids, other) + if id == other then [|ids|] else []
  {
    assert (ids + [id])[..|ids|] == ids;
  }

  lemma {:induction false} NoCores(ids: seq<int>, id: int)
    requires id !in ids
    ensures CoresOf(ids, id) == []
  {
    if ids != [] {
      var n := |ids| - 1;
      assert ids[n] in ids;
      NoCores(ids[..n], id);
    }
  }

  /** The renumbering with an entry for `id`. */
  function WithId(numbers: map<int, nat>, id: int): map<int, nat> {
    if id in numbers then numbers else numbers[id := |numbers|]
  }

  /** The packages with `core` put behind the cores of package `p`. */
  function WithCore(packages: map<nat, seq<nat>>, p: nat, core: nat): map<nat, seq<nat>> {
    packages[p := (if p in packages then packages[p] else []) + [core]]
  }

  lemma NumbersStep(ids: seq<int>, id: int, numbers: map<int, nat>)
    requires AreNumbers(ids, numbers)
    ensures AreNumbers(ids + [id], WithId(numbers, id))
  {
    FirstOccurrencesSnoc(ids, id);
  }

  lemma KnownStep(ids: seq<int>, order: seq<int>, packages: map<nat, seq<nat>>, p: nat)
    requires Lists(ids, order, packages) && Distinct(order) && p < |order|
    ensures Lists(ids + [order[p]], order, WithCore(packages, p, |ids|))
  {
    forall q: nat | q in packages
      ensures CoresOf(ids + [order[p]], order[q]) == packages[q] + if p == q then [|ids|] else []
    {
      CoresOfSnoc(ids, order[p], order[q]);
    }
    OneChanged(packages, WithCore(packages, p, |ids|), p, |ids|);
  }

  lemma OneChanged(packages: map<nat, seq<nat>>, after: map<nat, seq<nat>>, p: nat, core: nat)
    requires p in packages && after == WithCore(packages, p, core)
    ensures forall q: nat :: q in after <==> q in packages
    ensures forall q: nat :: q in packages ==> after[q] == packages[q] + if p == q then [core] else []
  {
    assert forall q: nat :: q in packages && q != p ==> packages[q] + [] == packages[q];
  }

  lemma OneAdded(packages: map<nat, seq<nat>>, after: map<nat, seq<nat>>, p: nat, core: nat)
    requires p !in packages && after == WithCore(packages, p, core)
    ensures forall q: nat :: q in after <==> q in packages || q == p
    ensures forall q: nat :: q in after ==> after[q] == if p == q then [core] else packages[q]
  {
    assert [] + [core] == [core];
  }

  lemma CoresUnlessNew(ids: seq<int>, id: int, other: int)
    requires id !in ids
    ensures CoresOf(ids + [id], other) == if id == other then [|ids|] else CoresOf(ids, other)
  {
    NoCores(ids, id);
    CoresOfSnoc(ids, id, other);
    assert CoresOf(ids, other) + [] == CoresOf(ids, other);
  }

  lemma NewList(ids: seq<int>, order: seq<int>, packages: map<nat, seq<nat>>, id: int, q: nat)
    requires Lists(ids, order, packages) && id !in order && id !in ids && q <= |order|
    ensures CoresOf(ids + [id], if q == |order| then id else order[q])
         == if q == |order| then [|ids|] else packages[q]
  {
    CoresUnlessNew(ids, id, if q == |order| then id else order[q]);
  }

  lemma NewStep(ids: seq<int>, order: seq<int>, packages: map<nat, seq<nat>>, id: int, more: seq<int>,
                after: map<nat, seq<nat>>)
    requires Lists(ids, order, packages) && id !in order && id !in ids
    requires more == order + [id] && after == WithCore(packages, |order|, |ids|)
    ensures Lists(ids + [id], more, after)
  {
    OneAdded(packages, after, |order|, |ids|);
    forall q: nat | q in after ensures after[q] == CoresOf(ids + [id], more[q]) {
      NewList(ids, order, packages, id, q);
      assert more[q] == if q == |order| then id else order[q];
    }
  }

  /** What one more core does to the packages and to the renumbering. */
  lemma Step(ids: seq<int>, id: int, packages: map<nat, seq<nat>>, numbers: map<int, nat>)
    requires AreRead(ids, packages, numbers)
    ensures AreRead(ids + [id], WithCore(packages, WithId(numbers, id)[id], |ids|), WithId(numbers, id))
  {
    var order := FirstOccurrences(ids);
    NumbersStep(ids, id, numbers);
    FirstOccurrencesSnoc(ids, id);
    if id in numbers {
      NoDuplicates(ids);
      assert order + [] == order;
      KnownStep(ids, order, packages, numbers[id]);
    } else {
      SameElements(ids, id);
      NewStep(ids, order, packages, id, order + [id], WithCore(packages, |order|, |ids|));
    }
  }

  // ---- What the packages promise ---------------------------------------

  /** The cores `c` and `d` are listed together. */
  ghost predicate Together(packages: map<nat, seq<nat>>, c: nat, d: nat) {
    exists p: nat :: p in packages && c in packages[p] && d in packages[p]
  }

  /** Dense package ids in order of first appearance, each core in one increasing list, and two cores in one list
      exactly if their physical ids are the same. */
  ghost predicate Renumbers(ids: seq<int>, packages: map<nat, seq<nat>>) {
    && (forall p: nat, q: nat :: q < p && p in packages ==> q in packages)
    && (forall p :: p in packages ==> packages[p] != [] && Increasing(packages[p]))
    && (forall p, q :: p in packages && q in packages && p < q ==> packages[p][0] < packages[q][0])
    && (forall p, c :: p in packages && c in packages[p] ==> c < |ids|)
    && (forall p, q, c :: p in packages && q in packages && c in packages[p] && c in packages[q] ==> p == q)
    && (forall c: nat, d: nat :: c < |ids| && d < |ids| ==> (Together(packages, c, d) <==> ids[c] == ids[d]))
  }

  lemma FirstCore(ids: seq<int>, id: int)
    requires id in ids
    ensures CoresOf(ids, id) != [] && CoresOf(ids, id)[0] == IndexOf(ids, id)
  {
    var i := IndexOf(ids, id);
    InCoresOf(ids, id, i);
    var cores := CoresOf(ids, id);
    var k :| 0 <= k < |cores| && cores[k] == i;
    assert cores[0] <= cores[k];
    assert ids[cores[0]] == id;
  }

  lemma ListOf(ids: seq<int>, packages: map<nat, seq<nat>>, p: nat, c: nat)
    requires ArePackages(ids, packages) && p in packages
    ensures c in packages[p] <==> c < |ids| && ids[c] == FirstOccurrences(ids)[p]
  {
    InCoresOf(ids, FirstOccurrences(ids)[p], c);
  }

  lemma TogetherIff(ids: seq<int>, packages: map<nat, seq<nat>>, c: nat, d: nat)
    requires ArePackages(ids, packages) && c < |ids| && d < |ids|
    ensures Together(packages, c, d) <==> ids[c] == ids[d]
  {
    var order := FirstOccurrences(ids);
    if ids[c] == ids[d] {
      SameElements(ids, ids[c]);
      var p: nat :| p < |order| && order[p] == ids[c];
      ListOf(ids, packages, p, c);
      ListOf(ids, packages, p, d);
    }
    if p: nat :| p in packages && c in packages[p] && d in packages[p] {
      ListOf(ids, packages, p, c);
      ListOf(ids, packages, p, d);
    }
  }

  lemma OneList(ids: seq<int>, packages: map<nat, seq<nat>>, p: nat, q: nat, c: nat)
    requires ArePackages(ids, packages) && p in packages && q in packages && c in packages[p] && c in packages[q]
    ensures p == q && c < |ids|
  {
    ListOf(ids, packages, p, c);
    ListOf(ids, packages, q, c);
    NoDuplicates(ids);
  }

  lemma ListsOrdered(ids: seq<int>, packages: map<nat, seq<nat>>, p: nat, q: nat)
    requires ArePackages(ids, packages) && p in packages && q in packages && p < q
    ensures packages[p] != [] && packages[q] != [] && packages[p][0] < packages[q][0]
  {
    var order := FirstOccurrences(ids);
    OrderedByFirst(ids, p, q);
    FirstCore(ids, order[p]);
    FirstCore(ids, order[q]);
  }

  lemma ListNotEmpty(ids: seq<int>, packages: map<nat, seq<nat>>, p: nat)
    requires ArePackages(ids, packages) && p in packages
    ensures packages[p] != [] && Increasing(packages[p])
  {
    var order := FirstOccurrences(ids);
    SameElements(ids, order[p]);
    FirstCore(ids, order[p]);
  }

  /** The detected packages renumber the physical ones. */
  lemma PackagesRenumber(ids: seq<int>, packages: map<nat, seq<nat>>)
    requires ArePackages(ids, packages)
    ensures Renumbers(ids, packages)
  {
    forall p | p in packages ensures packages[p] != [] && Increasing(packages[p]) {
      ListNotEmpty(ids, packages, p);
    }
    forall p, q | p in packages && q in packages && p < q ensures packages[p][0] < packages[q][0] {
      ListsOrdered(ids, packages, p, q);
    }
    forall p, q, c | p in packages && q in packages && c in packages[p] && c in packages[q]
      ensures p == q && c < |ids|
    {
      OneList(ids, packages, p, q, c);
    }
    forall c: nat, d: nat | c < |ids| && d < |ids| ensures Together(packages, c, d) <==> ids[c] == ids[d] {
      TogetherIff(ids, packages, c, d);
    }
  }

  // ---- Nothing else does -----------------------------------------------

  /** The packages below `n` are the same. */
  ghost predicate AgreeBelow(a: map<nat, seq<nat>>, b: map<nat, seq<nat>>, n: nat) {
    forall p :: 0 <= p < n && p in a ==> p in b && a[p] == b[p]
  }

  /** The first core that the packages below `p` leave over opens package `p`. */
  lemma NoLaterFirst(ids: seq<int>, a: map<nat, seq<nat>>, b: map<nat, seq<nat>>, p: nat)
    requires Renumbers(ids, a) && Renumbers(ids, b) && AgreeBelow(b, a, p) && p in a
    ensures p in b && b[p][0] <= a[p][0]
  {
    var c := a[p][0];
    assert c in a[p];
    assert Together(b, c, c);
    var q: nat :| q in b && c in b[q];
    assert q >= p;
    var k :| 0 <= k < |b[q]| && b[q][k] == c;
    assert b[q][0] <= c;
  }

  lemma SameCores(ids: seq<int>, a: map<nat, seq<nat>>, b: map<nat, seq<nat>>, p: nat, c: nat)
    requires Renumbers(ids, a) && Renumbers(ids, b) && p in a && p in b && a[p][0] == b[p][0] && c in a[p]
    ensures c in b[p]
  {
    var first := a[p][0];
    assert Together(a, first, c);
    assert Together(b, first, c);
  }

  /** An increasing list is determined by its elements. */
  lemma {:induction false} SameIncreasing(s: seq<nat>, t: seq<nat>)
    requires Increasing(s) && Increasing(t) && forall c :: c in s <==> c in t
    ensures s == t
  {
    SameEmpty(s, t);
    SameEmpty(t, s);
    if s != [] {
      var m, n := |s| - 1, |t| - 1;
      LastIsMost(s, t);
      LastIsMost(t, s);
      forall c ensures c in s[..m] <==> c in t[..n] {
        InFront(s, c);
        InFront(t, c);
      }
      SameIncreasing(s[..m], t[..n]);
      assert s == s[..m] + [s[m]] && t == t[..n] + [t[n]];
    }
  }

  lemma SameEmpty(s: seq<nat>, t: seq<nat>)
    requires forall c :: c in s ==> c in t
    ensures t == [] ==> s == []
  {
    assert s != [] ==> s[0] in s;
  }

  lemma LastIsMost(s: seq<nat>, t: seq<nat>)
    requires Increasing(t) && s != [] && t != [] && forall c :: c in s ==> c in t
    ensures s[|s| - 1] <= t[|t| - 1]
  {
    assert s[|s| - 1] in t;
  }

  lemma InFront(s: seq<nat>, c: nat)
    requires Increasing(s) && s != []
    ensures c in s[..|s| - 1] <==> c in s && c != s[|s| - 1]
  {
    assert s == s[..|s| - 1] + [s[|s| - 1]];
  }

  lemma {:induction false} AgreeAll(ids: seq<int>, a: map<nat, seq<nat>>, b: map<nat, seq<nat>>, n: nat)
    requires Renumbers(ids, a) && Renumbers(ids, b)
    ensures AgreeBelow(a, b, n) && AgreeBelow(b, a, n)
  {
    hide Renumbers;
    if n > 0 {
      AgreeAll(ids, a, b, n - 1);
      if n - 1 in a || n - 1 in b {
        SamePackage(ids, a, b, n - 1);
      }
    }
  }

  lemma SamePackage(ids: seq<int>, a: map<nat, seq<nat>>, b: map<nat, seq<nat>>, p: nat)
    requires Renumbers(ids, a) && Renumbers(ids, b) && AgreeBelow(a, b, p) && AgreeBelow(b, a, p)
    requires p in a || p in b
    ensures p in a && p in b && a[p] == b[p]
  {
    if p in a { NoLaterFirst(ids, a, b, p); }
    NoLaterFirst(ids, b, a, p);
    NoLaterFirst(ids, a, b, p);
    forall c ensures c in a[p] <==> c in b[p] {
      if c in a[p] { SameCores(ids, a, b, p, c); }
      if c in b[p] { SameCores(ids, b, a, p, c); }
    }
    SameIncreasing(a[p], b[p]);
  }

  /** Only the detected packages renumber the physical ones. */
  lemma RenumberingIsUnique(ids: seq<int>, a: map<nat, seq<nat>>, b: map<nat, seq<nat>>)
    requires Renumbers(ids, a) && Renumbers(ids, b)
    ensures a == b
  {
    forall p: nat ensures p in a <==> p in b {
      AgreeAll(ids, a, b, p + 1);
    }
    forall p | p in a ensures a[p] == b[p] {
      AgreeAll(ids, a, b, p + 1);
    }
  }
}
