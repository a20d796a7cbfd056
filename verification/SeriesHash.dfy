/** The identity of a time series: the byte string that is hashed and what it determines
    (retrieval/manager.go:321-345). */
module SeriesHash {
  import opened Common
  import opened Fnv

  const SEP: Byte := 0xff

  type Label = LabelOf<Bytes>

  type LabelMap = map<Bytes, Bytes>

  datatype Series = Series(resourceType: Bytes, metricType: Bytes, resourceLabels: LabelMap, metricLabels: LabelMap)

  // ---- Sorted labels ----

  /** Go's order on strings. */
  predicate Less(a: Bytes, b: Bytes) {
    b != [] && (a == [] || a[0] < b[0] || (a[0] == b[0] && Less(a[1..], b[1..])))
  }

  lemma {:induction false} LessTotal(a: Bytes, b: Bytes)
    ensures Less(a, b) || Less(b, a) || a == b
    ensures !(Less(a, b) && Less(b, a))
  {
    if a != [] && b != [] && a[0] == b[0] {
      LessTotal(a[1..], b[1..]);
      assert a == [a[0]] + a[1..] && b == [b[0]] + b[1..];
    }
  }

  lemma {:induction false} LessTransitive(a: Bytes, b: Bytes, c: Bytes)
    requires Less(a, b) && Less(b, c)
    ensures Less(a, c)
  {
    if a != [] && a[0] == b[0] && b[0] == c[0] {
      LessTransitive(a[1..], b[1..], c[1..]);
    }
  }

  /** The strings agree up to a place where the first ends or has the smaller byte. */
  ghost predicate BelowAt(a: Bytes, b: Bytes, i: nat) {
    i <= |a| && i < |b| && a[..i] == b[..i] && (i == |a| || a[i] < b[i])
  }

  /** The order is the lexicographic one. */
  lemma {:induction false} LessIff(a: Bytes, b: Bytes)
    ensures Less(a, b) <==> exists i: nat :: BelowAt(a, b, i)
  {
    if a == [] || b == [] || a[0] != b[0] {
      assert b != [] && (a == [] || a[0] < b[0]) ==> BelowAt(a, b, 0);
      assert forall i: nat :: BelowAt(a, b, i) && i > 0 ==> a[..i][0] == b[..i][0];
    } else {
      LessIff(a[1..], b[1..]);
      forall i: nat ensures BelowAt(a, b, i + 1) <==> BelowAt(a[1..], b[1..], i) {
        TailBelow(a, b, i);
      }
      assert !BelowAt(a, b, 0);
      assert forall i: nat :: BelowAt(a, b, i) ==> BelowAt(a[1..], b[1..], i - 1);
    }
  }

  lemma TailBelow(a: Bytes, b: Bytes, i: nat)
    requires a != [] && b != [] && a[0] == b[0]
    ensures BelowAt(a, b, i + 1) <==> BelowAt(a[1..], b[1..], i)
  {
    if i < |a| && i < |b| {
      assert a[..i + 1] == [a[0]] + a[1..][..i] && b[..i + 1] == [b[0]] + b[1..][..i];
      assert a[1..][..i] == a[..i + 1][1..] && b[1..][..i] == b[..i + 1][1..];
    }
  }

  ghost predicate Increasing(ls: seq<Label>) {
    forall i, j :: 0 <= i < j < |ls| ==> Less(ls[i].name, ls[j].name)
  }

  /** `ls` holds exactly the entries of `m`, by increasing name. */
  ghost predicate SortedOf(ls: seq<Label>, m: LabelMap) {
    && Increasing(ls)
    && (forall l <- ls :: l.name in m && m[l.name] == l.value)
    && (forall k <- m :: Label(k, m[k]) in ls)
  }

  function Insert(l: Label, ls: seq<Label>): seq<Label> {
    if ls == [] || Less(l.name, ls[0].name) then [l] + ls else [ls[0]] + Insert(l, ls[1..])
  }

  function Sort(ls: seq<Label>): seq<Label> {
    if ls == [] then [] else Insert(ls[0], Sort(ls[1..]))
  }

  lemma {:induction false} InsertSorts(l: Label, ls: seq<Label>)
    requires Increasing(ls) && forall x <- ls :: x.name != l.name
    ensures Increasing(Insert(l, ls))
    ensures forall x :: x in Insert(l, ls) <==> x == l || x in ls
  {
    if ls != [] {
      LessTotal(l.name, ls[0].name);
      assert ls[0] in ls;
      if Less(l.name, ls[0].name) {
        forall j | 0 < j < |ls| ensures Less(l.name, ls[j].name) {
          LessTransitive(l.name, ls[0].name, ls[j].name);
        }
      } else {
        InsertSorts(l, ls[1..]);
        var rest := Insert(l, ls[1..]);
        forall j | 0 <= j < |rest| ensures Less(ls[0].name, rest[j].name) {
          assert rest[j] in rest;
        }
      }
    }
  }

  ghost predicate DistinctNames(ls: seq<Label>) {
    forall i, j :: 0 <= i < j < |ls| ==> ls[i].name != ls[j].name
  }

  lemma {:induction false} SortSorts(ls: seq<Label>)
    requires DistinctNames(ls)
    ensures Increasing(Sort(ls)) && forall x :: x in Sort(ls) <==> x in ls
  {
    if ls != [] {
      SortSorts(ls[1..]);
      InsertSorts(ls[0], Sort(ls[1..]));
    }
  }

  /** The sorted labels of a map are unique. */
  lemma {:induction false} SortedUnique(a: seq<Label>, b: seq<Label>)
    requires Increasing(a) && Increasing(b) && forall x :: x in a <==> x in b
    ensures a == b
  {
    if a == [] {
      assert forall i :: 0 <= i < |b| ==> b[i] in b;
    } else {
      assert a[0] in b && b != [] && b[0] in a;
      var i :| 0 <= i < |b| && b[i] == a[0];
      var j :| 0 <= j < |a| && a[j] == b[0];
      LessTotal(a[0].name, b[0].name);
      assert i == 0 && j == 0;
      LessTotal(a[0].name, a[0].name);
      assert forall k :: 0 < k < |a| ==> a[k] != a[0];
      assert forall k :: 0 < k < |b| ==> b[k] != b[0];
      forall x ensures x in a[1..] <==> x in b[1..] {
        assert x in a[1..] <==> x in a && x != a[0];
        assert x in b[1..] <==> x in b && x != b[0];
      }
      SortedUnique(a[1..], b[1..]);
    }
  }

  ghost predicate IsOrder(order: seq<Bytes>, m: LabelMap) {
    && (forall i, j :: 0 <= i < j < |order| ==> order[i] != order[j])
    && (forall k :: k in order <==> k in m)
  }

  /** FromMap: the map is ranged over in some order, which Go does not specify, and the result is sorted. */
  method FromMap(m: LabelMap, order: seq<Bytes>) returns (ls: seq<Label>)
    requires IsOrder(order, m)
    ensures SortedOf(ls, m) && ls == Labels(m)
  {
    ls := [];
    var i := 0;
    while i < |order|
      invariant 0 <= i <= |order| == |order| && |ls| == i
      invariant forall k :: 0 <= k < i ==> order[k] in m && ls[k] == Label(order[k], m[order[k]])
    {
      assert order[i] in order;
      ls := ls + [Label(order[i], m[order[i]])];
      i := i + 1;
    }
    forall k <- m ensures Label(k, m[k]) in ls {
      var j :| 0 <= j < |order| && order[j] == k;
      assert ls[j] == Label(k, m[k]);
    }
    SortSorts(ls);
    ls := Sort(ls);
    LabelsUnique(m, ls);
  }

  ghost function Labels(m: LabelMap): (ls: seq<Label>)
    ensures SortedOf(ls, m)
    decreases |m|
  {
    if m == map[] then []
    else
      var k :| k in m;
      var rest := Labels(m - {k});
      InsertSorts(Label(k, m[k]), rest);
      assert forall j <- m :: j == k || Label(j, (m - {k})[j]) in rest;
      Insert(Label(k, m[k]), rest)
  }

  lemma LabelsUnique(m: LabelMap, ls: seq<Label>)
    requires SortedOf(ls, m)
    ensures ls == Labels(m)
  {
    forall x ensures x in ls <==> x in Labels(m) {
      assert x in ls <==> x.name in m && m[x.name] == x.value;
      assert x in Labels(m) <==> x.name in m && m[x.name] == x.value;
    }
    SortedUnique(ls, Labels(m));
  }

  lemma LabelsDetermine(m1: LabelMap, m2: LabelMap)
    requires Labels(m1) == Labels(m2)
    ensures m1 == m2
  {
    forall k | k in m1 ensures k in m2 && m2[k] == m1[k] {
      assert Label(k, m1[k]) in Labels(m2);
    }
    forall k | k in m2 ensures k in m1 {
      assert Label(k, m2[k]) in Labels(m1);
    }
  }

  // ---- The hashed byte string ----

  function Block(l: Label): Bytes {
    [SEP] + (l.name + ([SEP] + l.value))
  }

  function Encode(ls: seq<Label>): Bytes {
    if ls == [] then [] else Encode(ls[..|ls| - 1]) + Block(ls[|ls| - 1])
  }

  ghost function Canonical(s: Series): Bytes {
    s.resourceType + [SEP] + s.metricType + Encode(Labels(s.resourceLabels)) + [SEP] + Encode(Labels(s.metricLabels))
  }

  lemma EncodeSnoc(p: Bytes, ls: seq<Label>, l: Label)
    ensures p + Encode(ls + [l]) == p + Encode(ls) + Block(l)
  {
    assert (ls + [l])[..|ls|] == ls;
  }

  method AddLabel(h0: Uint64, l: Label) returns (h: Uint64)
    ensures h == Add(h0, Block(l))
  {
    h := HashAddByte(h0, SEP);
    h := HashAdd(h, l.name);
    h := HashAddByte(h, SEP);
    h := HashAdd(h, l.value);
    AddConcat(Add(Add(h0, [SEP]), l.name), [SEP], l.value);
    AddConcat(Add(h0, [SEP]), l.name, [SEP] + l.value);
    AddConcat(h0, [SEP], l.name + ([SEP] + l.value));
  }

  method AddLabels(h0: Uint64, ls: seq<Label>, ghost before: Bytes) returns (h: Uint64)
    requires h0 == Hash(before)
    ensures h == Hash(before + Encode(ls))
  {
    h := h0;
    var i := 0;
    assert before + [] == before;
    while i < |ls|
      invariant 0 <= i <= |ls| && h == Hash(before + Encode(ls[..i]))
    {
      h := AddLabel(h, ls[i]);
      AddConcat(OFFSET64, before + Encode(ls[..i]), Block(ls[i]));
      EncodeSnoc(before, ls[..i], ls[i]);
      assert ls[..i + 1] == ls[..i] + [ls[i]];
      i := i + 1;
    }
    assert ls[..i] == ls;
  }

  /** hashSeries: FNV-1a of the canonical string, whatever the order the label maps are ranged over in. */
  method HashSeries(s: Series, resourceOrder: seq<Bytes>, metricOrder: seq<Bytes>) returns (h: Uint64)
    requires IsOrder(resourceOrder, s.resourceLabels) && IsOrder(metricOrder, s.metricLabels)
    ensures h == Hash(Canonical(s))
  {
    h := HashNew();
    h := HashAdd(h, s.resourceType);
    h := HashAddByte(h, SEP);
    AddConcat(OFFSET64, s.resourceType, [SEP]);
    h := HashAdd(h, s.metricType);
    AddConcat(OFFSET64, s.resourceType + [SEP], s.metricType);
    ghost var p := s.resourceType + [SEP] + s.metricType;
    var resourceLabels := FromMap(s.resourceLabels, resourceOrder);
    h := AddLabels(h, resourceLabels, p);
    p := p + Encode(resourceLabels);
    h := HashAddByte(h, SEP);
    AddConcat(OFFSET64, p, [SEP]);
    var metricLabels := FromMap(s.metricLabels, metricOrder);
    h := AddLabels(h, metricLabels, p + [SEP]);
  }

  // ---- What the string determines ----

  predicate Clean(b: Bytes) {
    SEP !in b
  }

  predicate CleanLabels(m: LabelMap) {
    forall k <- m :: Clean(k) && k != [] && Clean(m[k])
  }

  predicate CleanSeries(s: Series) {
    && Clean(s.resourceType) && Clean(s.metricType)
    && CleanLabels(s.resourceLabels) && CleanLabels(s.metricLabels)
  }

  predicate CleanList(ls: seq<Label>) {
    forall l <- ls :: Clean(l.name) && l.name != [] && Clean(l.value)
  }

  /** The string ends here or goes on with a separator. */
  predicate AtSep(x: Bytes) {
    x == [] || x[0] == SEP
  }

  lemma SplitAtSep(a: Bytes, x: Bytes, b: Bytes, y: Bytes)
    requires Clean(a) && Clean(b) && AtSep(x) && AtSep(y) && a + x == b + y
    ensures a == b && x == y
  {
    var z := a + x;
    assert z == b + y;
    assert forall i :: 0 <= i < |a| ==> z[i] == a[i] && a[i] in a;
    assert forall i :: 0 <= i < |b| ==> z[i] == b[i] && b[i] in b;
    assert |a| < |z| ==> z[|a|] == SEP;
    assert |b| < |z| ==> z[|b|] == SEP;
    assert a == z[..|a|] && x == z[|a|..];
    assert b == z[..|b|] && y == z[|b|..];
  }

  /** Encode from the front. */
  lemma {:induction false} EncodeFront(ls: seq<Label>)
    requires ls != []
    ensures Encode(ls) == Block(ls[0]) + Encode(ls[1..])
  {
    if |ls| == 1 {
      assert ls[..0] == [] && ls[1..] == [];
    } else {
      var init := ls[..|ls| - 1];
      EncodeFront(init);
      assert ls[1..][..|ls| - 2] == init[1..];
      Assoc(Block(ls[0]), Encode(init[1..]), Block(ls[|ls| - 1]));
    }
  }

  lemma EncodeAtSep(ls: seq<Label>)
    ensures AtSep(Encode(ls)) && (Encode(ls) == [] <==> ls == [])
  {
    if ls != [] {
      EncodeFront(ls);
    }
  }

  lemma {:induction false} EncodeInjective(a: seq<Label>, b: seq<Label>)
    requires CleanList(a) && CleanList(b) && Encode(a) == Encode(b)
    ensures a == b
  {
    EncodeAtSep(a);
    EncodeAtSep(b);
    if a != [] {
      EncodeFront(a);
      EncodeFront(b);
      EncodeAtSep(a[1..]);
      EncodeAtSep(b[1..]);
      assert a[0] in a && b[0] in b;
      FrontInjective(a[0], b[0], Encode(a[1..]), Encode(b[1..]));
      EncodeInjective(a[1..], b[1..]);
      assert a == [a[0]] + a[1..] && b == [b[0]] + b[1..];
    }
  }

  /** The first label and what follows it can be read off. */
  lemma FrontInjective(l: Label, k: Label, x: Bytes, y: Bytes)
    requires Clean(l.name) && Clean(l.value) && Clean(k.name) && Clean(k.value) && AtSep(x) && AtSep(y)
    requires Block(l) + x == Block(k) + y
    ensures l == k && x == y
  {
    var u, v := [SEP] + (l.value + x), [SEP] + (k.value + y);
    BlockThen(l, x);
    BlockThen(k, y);
    Unsep(l.name + u, k.name + v);
    SplitAtSep(l.name, u, k.name, v);
    Unsep(l.value + x, k.value + y);
    SplitAtSep(l.value, x, k.value, y);
  }

  lemma BlockThen(l: Label, x: Bytes)
    ensures Block(l) + x == [SEP] + (l.name + ([SEP] + (l.value + x)))
  {
    Assoc([SEP], l.name + ([SEP] + l.value), x);
    Assoc(l.name, [SEP] + l.value, x);
    Assoc([SEP], l.value, x);
  }

  lemma FrontTail(a: seq<Label>, t: Bytes)
    requires a != [] && AtSep(t)
    ensures Encode(a) + t == Block(a[0]) + (Encode(a[1..]) + t)
    ensures AtSep(Encode(a[1..]) + t)
  {
    EncodeFront(a);
    EncodeAtSep(a[1..]);
    Assoc(Block(a[0]), Encode(a[1..]), t);
  }

  lemma Unsep(x: Bytes, y: Bytes)
    requires [SEP] + x == [SEP] + y
    ensures x == y
  {
    assert x == ([SEP] + x)[1..] && y == ([SEP] + y)[1..];
  }

  /** Two label lists in a row, with the empty separator block in between, can be told apart. */
  lemma {:induction false} PairInjective(a: seq<Label>, b: seq<Label>, c: seq<Label>, d: seq<Label>)
    requires CleanList(a) && CleanList(b) && CleanList(c) && CleanList(d)
    requires Encode(a) + ([SEP] + Encode(b)) == Encode(c) + ([SEP] + Encode(d))
    ensures a == c && b == d
  {
    if a != [] && c != [] {
      var t, u := [SEP] + Encode(b), [SEP] + Encode(d);
      FrontTail(a, t);
      FrontTail(c, u);
      assert a[0] in a && c[0] in c;
      FrontInjective(a[0], c[0], Encode(a[1..]) + t, Encode(c[1..]) + u);
      PairInjective(a[1..], b, c[1..], d);
      assert a == [a[0]] + a[1..] && c == [c[0]] + c[1..];
    } else if a == [] && c == [] {
      assert [SEP] + Encode(b) == Encode(a) + ([SEP] + Encode(b));
      assert [SEP] + Encode(d) == Encode(c) + ([SEP] + Encode(d));
      Unsep(Encode(b), Encode(d));
      EncodeInjective(b, d);
    } else if a == [] {
      EmptyIsNot(b, c, d);
    } else {
      EmptyIsNot(d, a, b);
    }
  }

  lemma EmptyIsNot(b: seq<Label>, c: seq<Label>, d: seq<Label>)
    requires c != [] && CleanList(c)
    ensures [] + ([SEP] + Encode(b)) != Encode(c) + ([SEP] + Encode(d))
  {
    EncodeAtSep(b);
    FrontTail(c, [SEP] + Encode(d));
    BlockThen(c[0], Encode(c[1..]) + ([SEP] + Encode(d)));
    var s, t := Encode(c) + ([SEP] + Encode(d)), [] + ([SEP] + Encode(b));
    assert c[0] in c && c[0].name[0] in c[0].name;
    assert |s| > 1 && s[1] == c[0].name[0];
    assert |t| > 1 ==> t[1] == SEP;
  }

  lemma CanonicalShape(s: Series)
    ensures Canonical(s) == s.resourceType + ([SEP] + (s.metricType +
      (Encode(Labels(s.resourceLabels)) + ([SEP] + Encode(Labels(s.metricLabels))))))
  {
    var r, m := Encode(Labels(s.resourceLabels)), Encode(Labels(s.metricLabels));
    Assoc(s.resourceType + [SEP] + s.metricType + r, [SEP], m);
    Assoc(s.resourceType + [SEP] + s.metricType, r, [SEP] + m);
    Assoc(s.resourceType + [SEP], s.metricType, r + ([SEP] + m));
    Assoc(s.resourceType, [SEP], s.metricType + (r + ([SEP] + m)));
  }

  /** Two strings and a rest, each after a separator. */
  lemma HeadInjective(a: Bytes, b: Bytes, x: Bytes, c: Bytes, d: Bytes, y: Bytes)
    requires Clean(a) && Clean(b) && Clean(c) && Clean(d) && AtSep(x) && AtSep(y)
    requires a + ([SEP] + (b + x)) == c + ([SEP] + (d + y))
    ensures a == c && b == d && x == y
  {
    SplitAtSep(a, [SEP] + (b + x), c, [SEP] + (d + y));
    Unsep(b + x, d + y);
    SplitAtSep(b, x, d, y);
  }

  lemma TailAtSep(a: seq<Label>, b: Bytes)
    ensures AtSep(Encode(a) + ([SEP] + b))
  {
    EncodeAtSep(a);
  }

  /** Different series are hashed from different strings. */
  lemma CanonicalInjective(s: Series, t: Series)
    requires CleanSeries(s) && CleanSeries(t) && Canonical(s) == Canonical(t)
    ensures s == t
  {
    CanonicalShape(s);
    CanonicalShape(t);
    var sr, sm, tr, tm :=
      Labels(s.resourceLabels), Labels(s.metricLabels), Labels(t.resourceLabels), Labels(t.metricLabels);
    var x, y := Encode(sr) + ([SEP] + Encode(sm)), Encode(tr) + ([SEP] + Encode(tm));
    TailAtSep(sr, Encode(sm));
    TailAtSep(tr, Encode(tm));
    HeadInjective(s.resourceType, s.metricType, x, t.resourceType, t.metricType, y);
    PairInjective(sr, sm, tr, tm);
    LabelsDetermine(s.resourceLabels, t.resourceLabels);
    LabelsDetermine(s.metricLabels, t.metricLabels);
  }

  lemma LabelsOfOne(k: Bytes, v: Bytes)
    ensures Labels(map[]) == [] && Labels(map[k := v]) == [Label(k, v)]
    ensures Encode([Label(k, v)]) == [SEP] + (k + ([SEP] + v))
  {
    LabelsUnique(map[k := v], [Label(k, v)]);
    EncodeFront([Label(k, v)]);
  }

  lemma LabelsOfTwo(k: Bytes, v: Bytes, j: Bytes, w: Bytes)
    requires Less(j, k)
    ensures Labels(map[k := v, j := w]) == [Label(j, w), Label(k, v)]
    ensures Encode([Label(j, w), Label(k, v)]) == Block(Label(j, w)) + Block(Label(k, v))
  {
    var m, ls := map[k := v, j := w], [Label(j, w), Label(k, v)];
    LessTotal(j, k);
    LessTotal(k, k);
    assert m[k] == v && m[j] == w;
    assert Label(j, w) == ls[0] && Label(k, v) == ls[1];
    LabelsUnique(m, ls);
    EncodeFront(ls);
    assert ls[1..] == [Label(k, v)];
    EncodeFront([Label(k, v)]);
  }

  /** The string of a series with labels on both sides: the types, the resource's labels by name, an empty block, the
      metric's labels. */
  lemma CanonicalLayout(r: Bytes, t: Bytes, k: Bytes, v: Bytes, j: Bytes, w: Bytes, n: Bytes, x: Bytes)
    requires Less(j, k)
    ensures Canonical(Series(r, t, map[k := v, j := w], map[n := x])) ==
      r + ([SEP] + (t + (([SEP] + (j + ([SEP] + w))) + ([SEP] + (k + ([SEP] + v)))
        + ([SEP] + ([SEP] + (n + ([SEP] + x)))))))
  {
    LabelsOfTwo(k, v, j, w);
    LabelsOfOne(n, x);
    CanonicalShape(Series(r, t, map[k := v, j := w], map[n := x]));
  }

  /** Both conditions are needed: with an empty label name, or with a separator inside a string, different series
      share their string and so their hash. */
  lemma CanonicalCollides()
    ensures Canonical(Series([1], [2], map[[] := [3]], map[])) == Canonical(Series([1], [2], map[], map[[3] := []]))
    ensures Canonical(Series([1, SEP], [2], map[], map[])) == Canonical(Series([1], [SEP, 2], map[], map[]))
  {
    LabelsOfOne([], [3]);
    LabelsOfOne([3], []);
  }
}
