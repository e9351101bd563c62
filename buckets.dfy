/**
  The bucket maps SarifService fills: a hash map from key to the list of
  leaves filed under it, and the two sorted maps of the alert-number view
  (a TreeMap in natural String order, then the same entries re-sorted by
  the integer value of their keys).
 */
module Buckets {
  import opened Options
  import opened Leaves
  import Numbers

  /* ---------------------------------------------------------------------
     Hash-map buckets
     --------------------------------------------------------------------- */

  /** One fill step: `if (map.containsKey(key)) map[key].add(x) else
      map[key] = mutableListOf(x)`. */
  function Insert<K(==)>(m: map<K, seq<Leaf>>, k: K, x: Leaf): (r: map<K, seq<Leaf>>)
    ensures r.Keys == m.Keys + {k}
    ensures r[k] == (if k in m then m[k] else []) + [x]
    ensures forall j :: j in m && j != k ==> r[j] == m[j]
  {
    if k in m then m[k := m[k] + [x]] else m[k := [x]]
  }

  /** The bucket map after filing each keyed leaf of `es`, in order. */
  function Group<K(==)>(es: seq<(K, Leaf)>): map<K, seq<Leaf>>
    decreases |es|
  {
    if es == [] then map[]
    else
      var n := |es| - 1;
      Insert(Group(es[..n]), es[n].0, es[n].1)
  }

  /** Filing one more leaf is one Insert. */
  lemma GroupStep<K>(es: seq<(K, Leaf)>, k: K, x: Leaf)
    ensures Group(es + [(k, x)]) == Insert(Group(es), k, x)
  {
    assert (es + [(k, x)])[..|es|] == es;
  }

  /** Reference definition of a bucket: the leaves filed under `k`, in the
      order they come in `es`. */
  function Select<K(==)>(es: seq<(K, Leaf)>, k: K): seq<Leaf>
    decreases |es|
  {
    if es == [] then []
    else
      var n := |es| - 1;
      Select(es[..n], k) + (if es[n].0 == k then [es[n].1] else [])
  }

  /** Grouping files every leaf under its own key and nowhere else, keeping
      the order in which the leaves come: the map has a bucket exactly for
      the keys that occur, and each bucket is the selection of its key. */
  lemma {:induction false} GroupSelects<K>(es: seq<(K, Leaf)>)
    ensures forall k :: k in Group(es) <==> Select(es, k) != []
    ensures forall k :: k in Group(es) ==> Group(es)[k] == Select(es, k)
    decreases |es|
  {
    if es != [] {
      GroupSelects(es[..|es| - 1]);
    }
  }

  /** A leaf is in the selection of `k` exactly when some entry files it
      under `k`. */
  lemma {:induction false} SelectMembers<K>(es: seq<(K, Leaf)>, k: K, x: Leaf)
    ensures x in Select(es, k) <==> exists i :: 0 <= i < |es| && es[i] == (k, x)
    decreases |es|
  {
    if es != [] {
      var n := |es| - 1;
      SelectMembers(es[..n], k, x);
      if x in Select(es[..n], k) {
        var i :| 0 <= i < n && es[..n][i] == (k, x);
        assert es[i] == (k, x);
      }
      if exists i :: 0 <= i < |es| && es[i] == (k, x) {
        var i :| 0 <= i < |es| && es[i] == (k, x);
        if i < n {
          assert es[..n][i] == (k, x);
        }
      }
    }
  }

  /** Each entry's leaf is in the bucket of its key. */
  lemma GroupFilesEach<K>(es: seq<(K, Leaf)>)
    ensures forall i :: 0 <= i < |es| ==> es[i].0 in Group(es) && es[i].1 in Group(es)[es[i].0]
  {
    GroupSelects(es);
    forall i | 0 <= i < |es| ensures es[i].1 in Select(es, es[i].0) {
      SelectMembers(es, es[i].0, es[i].1);
    }
  }

  /** Selections split across a concatenation. */
  lemma {:induction false} SelectAppend<K>(a: seq<(K, Leaf)>, b: seq<(K, Leaf)>, k: K)
    ensures Select(a + b, k) == Select(a, k) + Select(b, k)
    decreases |b|
  {
    if b == [] {
      assert a + b == a;
    } else {
      var n := |b| - 1;
      assert (a + b)[..|a + b| - 1] == a + b[..n];
      SelectAppend(a, b[..n], k);
    }
  }

  /* ---------------------------------------------------------------------
     Sorted maps as ordered entry lists
     --------------------------------------------------------------------- */

  /** One entry of a sorted map: a key and its bucket. */
  type Entry = (string, seq<Leaf>)

  /** The keys of an entry list. */
  function KeysOf(es: seq<Entry>): set<string>
    decreases |es|
  {
    if es == [] then {} else {es[0].0} + KeysOf(es[1..])
  }

  /** The bucket of the first entry with key `k`, empty when there is none. */
  function BucketOf(es: seq<Entry>, k: string): seq<Leaf>
    decreases |es|
  {
    if es == [] then [] else if es[0].0 == k then es[0].1 else BucketOf(es[1..], k)
  }

  lemma {:induction false} BucketOfMissing(es: seq<Entry>, k: string)
    requires k !in KeysOf(es)
    ensures BucketOf(es, k) == []
    decreases |es|
  {
    if es != [] {
      BucketOfMissing(es[1..], k);
    }
  }

  /* -- the natural order of String ------------------------------------- */

  /** `a.compareTo(b) < 0`: the first differing character decides, and a
      proper prefix comes first. */
  predicate LexLess(a: string, b: string)
    decreases |a|
  {
    if a == [] then b != []
    else if b == [] then false
    else if a[0] != b[0] then a[0] < b[0]
    else LexLess(a[1..], b[1..])
  }

  lemma {:induction false} LexIrreflexive(a: string)
    ensures !LexLess(a, a)
    decreases |a|
  {
    if a != [] {
      LexIrreflexive(a[1..]);
    }
  }

  lemma {:induction false} LexTransitive(a: string, b: string, c: string)
    requires LexLess(a, b) && LexLess(b, c)
    ensures LexLess(a, c)
    decreases |a|
  {
    if a != [] && b != [] && c != [] && a[0] == b[0] && b[0] == c[0] {
      LexTransitive(a[1..], b[1..], c[1..]);
    }
  }

  lemma {:induction false} LexTotal(a: string, b: string)
    requires a != b
    ensures LexLess(a, b) || LexLess(b, a)
    decreases |a|
  {
    if a != [] && b != [] && a[0] == b[0] {
      assert a == [a[0]] + a[1..] && b == [b[0]] + b[1..];
      LexTotal(a[1..], b[1..]);
    }
  }

  lemma {:induction false} LexAsymmetric(a: string, b: string)
    requires LexLess(a, b)
    ensures !LexLess(b, a)
  {
    if LexLess(b, a) {
      LexTransitive(a, b, a);
      LexIrreflexive(a);
    }
  }

  /** Strictly ascending keys in natural String order, as a TreeMap<String>
      iterates. */
  ghost predicate LexSorted(es: seq<Entry>) {
    forall i, j :: 0 <= i < j < |es| ==> LexLess(es[i].0, es[j].0)
  }

  lemma {:induction false} LexSortedCons(e: Entry, es: seq<Entry>)
    requires LexSorted(es) && forall k :: k in KeysOf(es) ==> LexLess(e.0, k)
    ensures LexSorted([e] + es)
  {
    forall j | 0 < j < |[e] + es| ensures LexLess(([e] + es)[0].0, ([e] + es)[j].0) {
      KeysOfIndex(es, j - 1);
    }
  }

  lemma {:induction false} KeysOfIndex(es: seq<Entry>, i: int)
    requires 0 <= i < |es|
    ensures es[i].0 in KeysOf(es)
    decreases i
  {
    if i > 0 {
      KeysOfIndex(es[1..], i - 1);
    }
  }

  lemma {:induction false} KeysOfMember(es: seq<Entry>, k: string) returns (i: int)
    requires k in KeysOf(es)
    ensures 0 <= i < |es| && es[i].0 == k
    decreases |es|
  {
    if es[0].0 == k {
      i := 0;
    } else {
      var j := KeysOfMember(es[1..], k);
      i := j + 1;
    }
  }

  /** Every key of a sorted list comes after its first key. */
  lemma {:induction false} LexSortedHead(es: seq<Entry>)
    requires LexSorted(es) && es != []
    ensures LexSorted(es[1..])
    ensures forall k :: k in KeysOf(es[1..]) ==> LexLess(es[0].0, k)
  {
    forall k | k in KeysOf(es[1..]) ensures LexLess(es[0].0, k) {
      var i := KeysOfMember(es[1..], k);
    }
  }

  /** One TreeMap<String> fill step: append to the bucket of `k`, or insert
      a new bucket `[x]` at its place in the order. */
  function LexPut(es: seq<Entry>, k: string, x: Leaf): seq<Entry>
    decreases |es|
  {
    if es == [] then [(k, [x])]
    else if es[0].0 == k then [(k, es[0].1 + [x])] + es[1..]
    else if LexLess(k, es[0].0) then [(k, [x])] + es
    else [es[0]] + LexPut(es[1..], k, x)
  }

  /** LexPut keeps the list sorted, adds `k` to its keys, appends `x` to the
      bucket of `k` and leaves every other bucket as it was. */
  lemma {:induction false} LexPutSpec(es: seq<Entry>, k: string, x: Leaf)
    requires LexSorted(es)
    ensures LexSorted(LexPut(es, k, x))
    ensures KeysOf(LexPut(es, k, x)) == KeysOf(es) + {k}
    ensures forall j :: BucketOf(LexPut(es, k, x), j) == BucketOf(es, j) + (if j == k then [x] else [])
    decreases |es|
  {
    var r := LexPut(es, k, x);
    if es == [] {
    } else if es[0].0 == k {
      assert r[1..] == es[1..];
      LexSortedHead(es);
      LexSortedCons(r[0], es[1..]);
    } else if LexLess(k, es[0].0) {
      LexSortedHead(es);
      forall j | j in KeysOf(es) ensures LexLess(k, j) {
        if j != es[0].0 {
          LexTransitive(k, es[0].0, j);
        }
      }
      assert r[1..] == es;
      LexSortedCons(r[0], es);
      LexIrreflexive(k);
      BucketOfMissing(es, k);
    } else {
      LexTotal(k, es[0].0);
      LexSortedHead(es);
      LexPutSpec(es[1..], k, x);
      assert r[1..] == LexPut(es[1..], k, x);
      LexSortedCons(es[0], LexPut(es[1..], k, x));
    }
  }

  /** The TreeMap<String> after filing each keyed leaf of `pairs` in order. */
  function LexGroup(pairs: seq<(string, Leaf)>): seq<Entry>
    decreases |pairs|
  {
    if pairs == [] then []
    else
      var n := |pairs| - 1;
      LexPut(LexGroup(pairs[..n]), pairs[n].0, pairs[n].1)
  }

  /** Filing one more leaf is one LexPut. */
  lemma LexGroupStep(pairs: seq<(string, Leaf)>, k: string, x: Leaf)
    ensures LexGroup(pairs + [(k, x)]) == LexPut(LexGroup(pairs), k, x)
  {
    assert (pairs + [(k, x)])[..|pairs|] == pairs;
  }

  /** `es` holds exactly the buckets of `pairs`, in natural key order. */
  ghost predicate ListsGroup(es: seq<Entry>, pairs: seq<(string, Leaf)>) {
    && LexSorted(es)
    && (forall k :: k in KeysOf(es) <==> Select(pairs, k) != [])
    && (forall k :: BucketOf(es, k) == Select(pairs, k))
  }

  /** The sorted fill holds the same buckets as the hash-map fill, in
      natural key order. */
  lemma {:induction false} LexGroupListsGroup(pairs: seq<(string, Leaf)>)
    ensures ListsGroup(LexGroup(pairs), pairs)
    decreases |pairs|
  {
    if pairs != [] {
      var n := |pairs| - 1;
      LexGroupListsGroup(pairs[..n]);
      LexPutSpec(LexGroup(pairs[..n]), pairs[n].0, pairs[n].1);
    }
  }

  /* -- the integer comparator of the alert-number view ------------------ */

  /** The sort value of an alert-number key: Integer.valueOf(key), or
      Integer.MIN_VALUE when the key is not a 32-bit decimal number. */
  function SortValue(k: string): (v: int)
    ensures Numbers.MinInt32 <= v <= Numbers.MaxInt32
  {
    match Numbers.ParseInt(k)
    case Some(v) => v
    case None => Numbers.MinInt32
  }

  /** The sort values present in an entry list. */
  function RanksOf(es: seq<Entry>): set<int>
    decreases |es|
  {
    if es == [] then {} else {SortValue(es[0].0)} + RanksOf(es[1..])
  }

  /** Strictly ascending sort values: the iteration order of a TreeMap built
      with `Comparator.comparingInt(SortValue)`, in which keys of equal sort
      value are one key. */
  ghost predicate RankSorted(es: seq<Entry>) {
    forall i, j :: 0 <= i < j < |es| ==> SortValue(es[i].0) < SortValue(es[j].0)
  }

  /** The entry stored for sort value `r`, if any: what TreeMap.get finds
      for any key whose sort value is `r`. */
  function AtRank(es: seq<Entry>, r: int): Option<Entry>
    decreases |es|
  {
    if es == [] then None
    else if SortValue(es[0].0) == r then Some(es[0])
    else AtRank(es[1..], r)
  }

  lemma {:induction false} AtRankPresent(es: seq<Entry>, r: int)
    ensures AtRank(es, r).Some? <==> r in RanksOf(es)
    ensures AtRank(es, r).Some? ==> SortValue(AtRank(es, r).value.0) == r
    decreases |es|
  {
    if es != [] {
      AtRankPresent(es[1..], r);
    }
  }

  lemma {:induction false} RanksOfIndex(es: seq<Entry>, i: int)
    requires 0 <= i < |es|
    ensures SortValue(es[i].0) in RanksOf(es)
    decreases i
  {
    if i > 0 {
      RanksOfIndex(es[1..], i - 1);
    }
  }

  lemma {:induction false} RanksOfMember(es: seq<Entry>, r: int) returns (i: int)
    requires r in RanksOf(es)
    ensures 0 <= i < |es| && SortValue(es[i].0) == r
    decreases |es|
  {
    if SortValue(es[0].0) == r {
      i := 0;
    } else {
      var j := RanksOfMember(es[1..], r);
      i := j + 1;
    }
  }

  lemma {:induction false} RankSortedCons(e: Entry, es: seq<Entry>)
    requires RankSorted(es) && forall r :: r in RanksOf(es) ==> SortValue(e.0) < r
    ensures RankSorted([e] + es)
  {
    forall j | 0 < j < |[e] + es| ensures SortValue(([e] + es)[0].0) < SortValue(([e] + es)[j].0) {
      RanksOfIndex(es, j - 1);
    }
  }

  lemma {:induction false} RankSortedHead(es: seq<Entry>)
    requires RankSorted(es) && es != []
    ensures RankSorted(es[1..])
    ensures forall r :: r in RanksOf(es[1..]) ==> SortValue(es[0].0) < r
  {
    forall r | r in RanksOf(es[1..]) ensures SortValue(es[0].0) < r {
      var i := RanksOfMember(es[1..], r);
    }
  }

  /** TreeMap.put under the integer comparator: when an entry of equal sort
      value exists its key stays and its bucket is replaced by `b`;
      otherwise `(k, b)` is inserted at its place. */
  function RankPut(es: seq<Entry>, k: string, b: seq<Leaf>): seq<Entry>
    decreases |es|
  {
    if es == [] then [(k, b)]
    else if SortValue(es[0].0) == SortValue(k) then [(es[0].0, b)] + es[1..]
    else if SortValue(k) < SortValue(es[0].0) then [(k, b)] + es
    else [es[0]] + RankPut(es[1..], k, b)
  }

  /** RankPut keeps the order, adds the sort value of `k`, and at that sort
      value stores `b` under the key already there (or `k` when none was);
      every other sort value keeps its entry. */
  lemma {:induction false} RankPutSpec(es: seq<Entry>, k: string, b: seq<Leaf>)
    requires RankSorted(es)
    ensures RankSorted(RankPut(es, k, b))
    ensures RanksOf(RankPut(es, k, b)) == RanksOf(es) + {SortValue(k)}
    ensures forall r ::
              AtRank(RankPut(es, k, b), r) ==
              if r != SortValue(k) then AtRank(es, r)
              else Some((if AtRank(es, r).Some? then AtRank(es, r).value.0 else k, b))
    decreases |es|
  {
    var res := RankPut(es, k, b);
    if es == [] {
    } else if SortValue(es[0].0) == SortValue(k) {
      assert res[1..] == es[1..];
      RankSortedHead(es);
      RankSortedCons(res[0], es[1..]);
    } else if SortValue(k) < SortValue(es[0].0) {
      RankSortedHead(es);
      assert res[1..] == es;
      RankSortedCons(res[0], es);
      AtRankPresent(es, SortValue(k));
    } else {
      RankSortedHead(es);
      RankPutSpec(es[1..], k, b);
      assert res[1..] == RankPut(es[1..], k, b);
      RankSortedCons(es[0], RankPut(es[1..], k, b));
    }
  }

  /** TreeMap.putAll under the integer comparator: each entry of `es` put
      into `acc` in order. */
  function PutAllByRank(acc: seq<Entry>, es: seq<Entry>): seq<Entry>
    decreases |es|
  {
    if es == [] then acc
    else
      var n := |es| - 1;
      RankPut(PutAllByRank(acc, es[..n]), es[n].0, es[n].1)
  }

  /** `toSortedMap(Comparator.comparingInt(SortValue))`: the entries, in
      their order, put into an empty map with the integer comparator. */
  function SortByRank(es: seq<Entry>): seq<Entry> {
    PutAllByRank([], es)
  }

  /** The key of the first entry with sort value `r`. */
  function FirstKeyWithRank(es: seq<Entry>, r: int): (k: Option<string>)
    ensures k.Some? <==> r in RanksOf(es)
    ensures k.Some? ==> SortValue(k.value) == r
    decreases |es|
  {
    if es == [] then None
    else if SortValue(es[0].0) == r then Some(es[0].0)
    else FirstKeyWithRank(es[1..], r)
  }

  /** The bucket of the last entry with sort value `r`. */
  function LastBucketWithRank(es: seq<Entry>, r: int): (b: Option<seq<Leaf>>)
    ensures b.Some? <==> r in RanksOf(es)
    decreases |es|
  {
    if es == [] then None
    else
      match LastBucketWithRank(es[1..], r)
      case Some(b) => Some(b)
      case None => if SortValue(es[0].0) == r then Some(es[0].1) else None
  }

  lemma {:induction false} LastBucketAppend(es: seq<Entry>, e: Entry, r: int)
    ensures LastBucketWithRank(es + [e], r) ==
      if SortValue(e.0) == r then Some(e.1) else LastBucketWithRank(es, r)
    decreases |es|
  {
    if es != [] {
      assert (es + [e])[1..] == es[1..] + [e];
      LastBucketAppend(es[1..], e, r);
    }
  }

  lemma {:induction false} FirstKeyAppend(es: seq<Entry>, e: Entry, r: int)
    ensures FirstKeyWithRank(es + [e], r) ==
      if FirstKeyWithRank(es, r).Some? then FirstKeyWithRank(es, r)
      else if SortValue(e.0) == r then Some(e.0)
      else None
    decreases |es|
  {
    if es != [] {
      assert (es + [e])[1..] == es[1..] + [e];
      FirstKeyAppend(es[1..], e, r);
    }
  }

  lemma {:induction false} RanksOfAppend(es: seq<Entry>, e: Entry)
    ensures RanksOf(es + [e]) == RanksOf(es) + {SortValue(e.0)}
    decreases |es|
  {
    if es != [] {
      assert (es + [e])[1..] == es[1..] + [e];
      RanksOfAppend(es[1..], e);
    }
  }

  /** What TreeMap.putAll leaves at sort value `r`: at a sort value that
      `es` has, the key `acc` had there (or else the first key of `es` with
      that value) and the bucket of the last entry of `es` with that value;
      elsewhere whatever `acc` had. */
  ghost function PutAllAt(acc: seq<Entry>, es: seq<Entry>, r: int): Option<Entry> {
    if r !in RanksOf(es) then AtRank(acc, r)
    else
      var key := if AtRank(acc, r).Some? then AtRank(acc, r).value.0 else FirstKeyWithRank(es, r).value;
      Some((key, LastBucketWithRank(es, r).value))
  }

  /** Putting all of `es` into a sorted `acc` keeps it sorted and adds the
      sort values of `es`. */
  lemma {:induction false} PutAllByRankSorted(acc: seq<Entry>, es: seq<Entry>)
    requires RankSorted(acc)
    ensures RankSorted(PutAllByRank(acc, es))
    ensures RanksOf(PutAllByRank(acc, es)) == RanksOf(acc) + RanksOf(es)
    decreases |es|
  {
    if es != [] {
      var n := |es| - 1;
      assert es == es[..n] + [es[n]];
      PutAllByRankSorted(acc, es[..n]);
      RankPutSpec(PutAllByRank(acc, es[..n]), es[n].0, es[n].1);
      RanksOfAppend(es[..n], es[n]);
    }
  }

  /** The entry TreeMap.putAll leaves at one sort value. */
  lemma {:induction false} PutAllByRankAt(acc: seq<Entry>, es: seq<Entry>, r: int)
    requires RankSorted(acc)
    ensures AtRank(PutAllByRank(acc, es), r) == PutAllAt(acc, es, r)
    decreases |es|
  {
    if es != [] {
      var n := |es| - 1;
      assert es == es[..n] + [es[n]];
      PutAllByRankSorted(acc, es[..n]);
      PutAllByRankAt(acc, es[..n], r);
      RankPutSpec(PutAllByRank(acc, es[..n]), es[n].0, es[n].1);
      RanksOfAppend(es[..n], es[n]);
      FirstKeyAppend(es[..n], es[n], r);
      LastBucketAppend(es[..n], es[n], r);
      AtRankPresent(acc, r);
    }
  }

  /** TreeMap.putAll under the integer comparator, as a whole. */
  lemma PutAllByRankSpec(acc: seq<Entry>, es: seq<Entry>)
    requires RankSorted(acc)
    ensures RankSorted(PutAllByRank(acc, es))
    ensures RanksOf(PutAllByRank(acc, es)) == RanksOf(acc) + RanksOf(es)
    ensures forall r :: AtRank(PutAllByRank(acc, es), r) == PutAllAt(acc, es, r)
  {
    PutAllByRankSorted(acc, es);
    forall r ensures AtRank(PutAllByRank(acc, es), r) == PutAllAt(acc, es, r) {
      PutAllByRankAt(acc, es, r);
    }
  }

  /** The alert-number order: sorted ascending by sort value, one entry per
      sort value present, holding the first key and the last bucket with
      that sort value. */
  lemma SortByRankSpec(es: seq<Entry>)
    ensures RankSorted(SortByRank(es))
    ensures RanksOf(SortByRank(es)) == RanksOf(es)
    ensures forall r ::
              AtRank(SortByRank(es), r) ==
              if r !in RanksOf(es) then None
              else Some((FirstKeyWithRank(es, r).value, LastBucketWithRank(es, r).value))
  {
    PutAllByRankSpec([], es);
  }

  /** In a rank-sorted list each sort value has one entry: the first key
      and the last bucket with that value are that entry's. */
  lemma {:induction false} SortedRankUnique(es: seq<Entry>, r: int)
    requires RankSorted(es) && r in RanksOf(es)
    ensures AtRank(es, r).Some?
    ensures FirstKeyWithRank(es, r) == Some(AtRank(es, r).value.0)
    ensures LastBucketWithRank(es, r) == Some(AtRank(es, r).value.1)
    decreases |es|
  {
    RankSortedHead(es);
    if SortValue(es[0].0) == r {
      assert r !in RanksOf(es[1..]);
    } else {
      SortedRankUnique(es[1..], r);
    }
  }

  /** In a rank-sorted list, looking up the sort value of an entry's key
      finds that entry. */
  lemma {:induction false} AtRankOfMember(es: seq<Entry>, i: int)
    requires RankSorted(es) && 0 <= i < |es|
    ensures AtRank(es, SortValue(es[i].0)) == Some(es[i])
    decreases i
  {
    if i > 0 {
      RankSortedHead(es);
      RanksOfIndex(es[1..], i - 1);
      AtRankOfMember(es[1..], i - 1);
    }
  }

  /** Keys that are not numbers sort first: when some key has sort value
      Integer.MIN_VALUE, the first entry of a rank-sorted list has it. */
  lemma MinRankFirst(es: seq<Entry>)
    requires RankSorted(es) && Numbers.MinInt32 in RanksOf(es)
    ensures es != [] && SortValue(es[0].0) == Numbers.MinInt32
  {
    var i := RanksOfMember(es, Numbers.MinInt32);
  }

  /** The sort value of every key is among the sort values of the list. */
  lemma {:induction false} KeysHaveRanks(es: seq<Entry>, k: string)
    requires k in KeysOf(es)
    ensures SortValue(k) in RanksOf(es)
    decreases |es|
  {
    if es[0].0 != k {
      KeysHaveRanks(es[1..], k);
    }
  }

  /** In a list in natural key order, the first key with a given sort value
      is the least of the keys with that sort value. */
  lemma {:induction false} FirstKeyIsLeast(es: seq<Entry>, r: int, k: string)
    requires LexSorted(es) && k in KeysOf(es) && SortValue(k) == r
    ensures FirstKeyWithRank(es, r).Some?
    ensures FirstKeyWithRank(es, r).value == k || LexLess(FirstKeyWithRank(es, r).value, k)
    decreases |es|
  {
    KeysHaveRanks(es, k);
    LexSortedHead(es);
    if SortValue(es[0].0) != r {
      FirstKeyIsLeast(es[1..], r, k);
    }
  }

  /** When no two entries share a sort value nothing collapses: each entry
      is found unchanged at its own sort value. */
  lemma {:induction false} DistinctRanksKeepEntries(es: seq<Entry>, i: int)
    requires 0 <= i < |es|
    requires forall a, b :: 0 <= a < b < |es| ==> SortValue(es[a].0) != SortValue(es[b].0)
    ensures AtRank(SortByRank(es), SortValue(es[i].0)) == Some(es[i])
  {
    SortByRankSpec(es);
    RanksOfIndex(es, i);
    OnlyEntryWithRank(es, i);
  }

  lemma {:induction false} OnlyEntryWithRank(es: seq<Entry>, i: int)
    requires 0 <= i < |es|
    requires forall a, b :: 0 <= a < b < |es| ==> SortValue(es[a].0) != SortValue(es[b].0)
    ensures FirstKeyWithRank(es, SortValue(es[i].0)) == Some(es[i].0)
    ensures LastBucketWithRank(es, SortValue(es[i].0)) == Some(es[i].1)
    decreases |es|
  {
    var r := SortValue(es[i].0);
    if i > 0 {
      OnlyEntryWithRank(es[1..], i - 1);
    } else {
      RankAbsent(es[1..], r);
    }
  }

  lemma {:induction false} RankAbsent(es: seq<Entry>, r: int)
    requires forall j :: 0 <= j < |es| ==> SortValue(es[j].0) != r
    ensures r !in RanksOf(es)
    decreases |es|
  {
    if es != [] {
      RankAbsent(es[1..], r);
    }
  }

  /** Keys of equal sort value collapse: "07" and "7" are both 7, so sorting
      `[("07", a), ("7", b)]` keeps one entry, under the first key "07" and
      with the last bucket `b`. */
  lemma EqualRanksCollapse(a: seq<Leaf>, b: seq<Leaf>)
    ensures SortByRank([("07", a), ("7", b)]) == [("07", b)]
  {
    assert Numbers.ParseInt("07") == Some(7) by {
      assert Numbers.DigitsValue("07") == 10 * Numbers.DigitsValue("0") + 7;
    }
    assert Numbers.ParseInt("7") == Some(7);
    var es := [("07", a), ("7", b)];
    assert es[..1] == [("07", a)];
    assert es[..1][..0] == [];
    assert PutAllByRank([], es[..1]) == RankPut([], "07", a) == [("07", a)];
    assert SortByRank(es) == RankPut([("07", a)], "7", b);
  }
}
