/** Turning WAL samples into points: grouping, histograms, and the loop that drains a record
    (retrieval/transform.go:34-134, 197-356, retrieval/manager.go:224-256, 347-360). */
module SampleBuilder {
  import opened Common
  import opened SeriesCache
  import opened Histogram

  datatype RefSample = RefSample(ref: nat, t: int, v: Value)

  // ---- Labels ----

  const NAME := "__name__"
  const LE := "le"

  /** The value of the first label of that name, empty if there is none. */
  function LabelValue(lset: seq<Label>, name: string): (value: string)
    ensures forall l <- lset :: l.name == name ==> Label(name, value) in lset
    ensures (forall l <- lset :: l.name != name) ==> value == ""
  {
    if lset == [] then "" else if lset[0].name == name then lset[0].value else LabelValue(lset[1..], name)
  }

  predicate Ignored(l: Label) {
    l.name == LE || l.name == NAME
  }

  /** The labels that identify a histogram. */
  function Identity(lset: seq<Label>): seq<Label> {
    if lset == [] then [] else (if Ignored(lset[0]) then [] else [lset[0]]) + Identity(lset[1..])
  }

  /** The labels that identify a histogram are all but `le` and `__name__`, each as often as it occurs. */
  lemma {:induction false} IdentityIsFilter(lset: seq<Label>, l: Label)
    ensures multiset(Identity(lset))[l] == if l.name == "le" || l.name == "__name__" then 0 else multiset(lset)[l]
  {
    if lset != [] {
      var first, rest := if Ignored(lset[0]) then [] else [lset[0]], Identity(lset[1..]);
      IdentityIsFilter(lset[1..], l);
      assert lset == [lset[0]] + lset[1..];
      assert Identity(lset) == first + rest;
      assert multiset(first + rest)[l] == multiset(first)[l] + multiset(rest)[l];
    }
  }

  /** And they keep their order. */
  lemma {:induction false} IdentityConcat(lset: seq<Label>, more: seq<Label>)
    ensures Identity(lset + more) == Identity(lset) + Identity(more)
  {
    if lset == [] {
      assert lset + more == more;
    } else {
      assert (lset + more)[0] == lset[0] && (lset + more)[1..] == lset[1..] + more;
      IdentityConcat(lset[1..], more);
      Assoc(if Ignored(lset[0]) then [] else [lset[0]], Identity(lset[1..]), Identity(more));
    }
  }

  lemma IdentityFrom(lset: seq<Label>, i: nat)
    requires i < |lset|
    ensures Identity(lset[i..]) == (if Ignored(lset[i]) then [] else [lset[i]]) + Identity(lset[i + 1..])
  {
    assert lset[i..][1..] == lset[i + 1..];
  }

  /** Whether the two lists agree from i and j on. */
  ghost predicate Agree(a: seq<Label>, i: nat, b: seq<Label>, j: nat)
    requires i <= |a| && j <= |b|
  {
    Identity(a[i..]) == Identity(b[j..])
  }

  lemma SkipIgnored(a: seq<Label>, i: nat, b: seq<Label>, j: nat)
    requires i < |a| && j <= |b| && Ignored(a[i])
    ensures Agree(a, i, b, j) == Agree(a, i + 1, b, j)
  {
    IdentityFrom(a, i);
  }

  lemma SkipOther(a: seq<Label>, i: nat, b: seq<Label>, j: nat)
    requires i <= |a| && j < |b| && Ignored(b[j])
    ensures Agree(a, i, b, j) == Agree(a, i, b, j + 1)
  {
    IdentityFrom(b, j);
  }

  lemma CompareBoth(a: seq<Label>, i: nat, b: seq<Label>, j: nat)
    requires i < |a| && j < |b| && !Ignored(a[i]) && !Ignored(b[j])
    ensures Agree(a, i, b, j) <==> a[i] == b[j] && Agree(a, i + 1, b, j + 1)
  {
    IdentityFrom(a, i);
    IdentityFrom(b, j);
    var p, q := Identity(a[i..]), Identity(b[j..]);
    assert p[0] == a[i] && p[1..] == Identity(a[i + 1..]);
    assert q[0] == b[j] && q[1..] == Identity(b[j + 1..]);
  }

  lemma AgreeAtEnd(a: seq<Label>, i: nat, b: seq<Label>, j: nat)
    requires i <= |a| && j <= |b| && (i == |a| || j == |b|)
    requires (i < |a| ==> !Ignored(a[i])) && (j < |b| ==> !Ignored(b[j]))
    ensures Agree(a, i, b, j) <==> i == |a| && j == |b|
  {
    if i < |a| {
      IdentityFrom(a, i);
    }
    if j < |b| {
      IdentityFrom(b, j);
    }
  }

  /** Walks both lists at once; true exactly when they agree on everything but the ignored labels. */
  method HistogramLabelsEqual(a: seq<Label>, b: seq<Label>) returns (equal: bool)
    ensures equal <==> Identity(a) == Identity(b)
  {
    var i, j := 0, 0;
    assert a[0..] == a && b[0..] == b;
    while i < |a| && j < |b|
      invariant 0 <= i <= |a| && 0 <= j <= |b|
      invariant Agree(a, 0, b, 0) == Agree(a, i, b, j)
      decreases |a| - i + |b| - j
    {
      if Ignored(a[i]) {
        SkipIgnored(a, i, b, j);
        i := i + 1;
        continue;
      }
      if Ignored(b[j]) {
        SkipOther(a, i, b, j);
        j := j + 1;
        continue;
      }
      CompareBoth(a, i, b, j);
      if a[i] != b[j] {
        return false;
      }
      i := i + 1;
      j := j + 1;
    }
    while i < |a| && Ignored(a[i])
      invariant 0 <= i <= |a| && (j == |b| || i == |a|)
      invariant Agree(a, 0, b, 0) == Agree(a, i, b, j)
    {
      SkipIgnored(a, i, b, j);
      i := i + 1;
    }
    while j < |b| && Ignored(b[j])
      invariant 0 <= j <= |b| && (j == |b| || i == |a|)
      invariant i < |a| ==> !Ignored(a[i])
      invariant Agree(a, 0, b, 0) == Agree(a, i, b, j)
    {
      SkipOther(a, i, b, j);
      j := j + 1;
    }
    AgreeAtEnd(a, i, b, j);
    equal := i == |a| && j == |b|;
  }

  // ---- Looking up a series ----

  /** What the cache and strconv.ParseFloat know: `infos` after any refresh, `fails` the references whose refresh
      fails during this call, `bounds` the strings that parse. */
  datatype Env = Env(infos: map<nat, Info>, fails: set<nat>, bounds: map<string, Bound>)

  datatype Lookup = Missing | Failure | Entry(info: Info)

  function Get(env: Env, ref: nat): Lookup {
    if ref !in env.infos then Missing
    else if env.infos[ref].populated then Entry(env.infos[ref])
    else if ref in env.fails then Failure
    else Missing
  }

  // ---- One histogram ----

  datatype Kind = SumOf | CountOf | BucketOf(bound: Bound) | BadBound | Misnamed

  datatype Class = Unlisted | Broken | Foreign | Member(kind: Kind)

  /** A histogram: its base name and the labels its series share. */
  datatype Group = Group(base: string, lset: seq<Label>)

  function KindOf(env: Env, base: string, lset: seq<Label>): Kind
    requires base <= LabelValue(lset, NAME)
  {
    var suffix := LabelValue(lset, NAME)[|base|..];
    if suffix == "_sum" then SumOf
    else if suffix == "_count" then CountOf
    else if suffix == "_bucket" then
      var le := LabelValue(lset, LE);
      if le in env.bounds then BucketOf(env.bounds[le]) else BadBound
    else Misnamed
  }

  /** The suffixes of the series a histogram is made of. */
  lemma Suffixes(env: Env, base: string, lset: seq<Label>)
    requires base <= LabelValue(lset, NAME)
    ensures var name, le := LabelValue(lset, "__name__"), LabelValue(lset, "le");
      && (name == base + "_sum" ==> KindOf(env, base, lset) == SumOf)
      && (name == base + "_count" ==> KindOf(env, base, lset) == CountOf)
      && (name == base + "_bucket" ==>
            KindOf(env, base, lset) == if le in env.bounds then BucketOf(env.bounds[le]) else BadBound)
      && (name !in {base + "_sum", base + "_count", base + "_bucket"} ==> KindOf(env, base, lset) == Misnamed)
  {
    var suffix := LabelValue(lset, NAME)[|base|..];
    assert LabelValue(lset, NAME) == base + suffix;
    assert (base + "_sum")[|base|..] == "_sum" && (base + "_count")[|base|..] == "_count";
    assert (base + "_bucket")[|base|..] == "_bucket";
    assert "_sum" != "_count" && "_sum" != "_bucket" && "_count" != "_bucket" by {
      assert |"_sum"| == 4 && |"_count"| == 6 && |"_bucket"| == 7;
    }
  }

  function Classify(env: Env, g: Group, ref: nat): Class {
    match Get(env, ref)
    case Missing => Unlisted
    case Failure => Broken
    case Entry(info) =>
      if g.base <= LabelValue(info.lset, NAME) && Identity(info.lset) == Identity(g.lset)
      then Member(KindOf(env, g.base, info.lset)) else Foreign
  }

  /** What has been read of a histogram, and the reset state of all series. */
  datatype Acc = Acc(
    sum: real, count: real, reset: int, buckets: multiset<Bucket>, skip: bool, resets: map<nat, ResetState>)

  function Start(resets: map<nat, ResetState>): Acc {
    Acc(0.0, 0.0, 0, multiset{}, false, resets)
  }

  function Touch(acc: Acc, s: RefSample): Acc
    requires s.v.Num?
  {
    if s.ref in acc.resets
    then acc.(resets := acc.resets[s.ref := NextReset(acc.resets[s.ref], s.t, s.v.x)]) else acc
  }

  function AdjustedIn(acc: Acc, s: RefSample): Adjusted
    requires s.v.Num?
  {
    if s.ref in acc.resets then Adjust(acc.resets[s.ref], s.t, s.v.x) else SKIPPED
  }

  /** What a member's adjusted value adds to the histogram. */
  function Note(acc: Acc, kind: Kind, a: Adjusted): Acc {
    match kind
    case SumOf => acc.(sum := a.value, skip := acc.skip || !a.ok)
    case CountOf => acc.(count := a.value, reset := a.start, skip := acc.skip || !a.ok)
    case BucketOf(b) => acc.(buckets := acc.buckets + multiset{Bucket(b, Trunc(a.value))}, skip := acc.skip || !a.ok)
    case BadBound => acc
    case Misnamed => acc
  }

  /** A member of the histogram is read. */
  function Absorb(acc: Acc, kind: Kind, s: RefSample): Acc
    requires s.v.Num?
  {
    Note(Touch(acc, s), kind, AdjustedIn(acc, s))
  }

  datatype Gathered = Gathered(acc: Acc, consumed: nat, failed: bool)

  /** The loop of buildDistribution: `first` at index zero, `last` the time of the last member. */
  function Gather(env: Env, g: Group, samples: seq<RefSample>, first: bool, last: int, acc: Acc): (r: Gathered)
    requires Numeric(env, g, samples)
    ensures r.consumed <= |samples|
    decreases samples
  {
    if samples == [] then Gathered(acc, 0, false)
    else
      var s := samples[0];
      match Classify(env, g, s.ref)
      case Broken => Gathered(acc, 0, true)
      case Foreign => Gathered(acc, 0, false)
      case Unlisted =>
        var r := Gather(env, g, samples[1..], false, last, acc);
        r.(consumed := r.consumed + 1)
      case Member(kind) =>
        if !first && s.t != last then Gathered(acc, 0, false)
        else if kind == Misnamed then Gathered(Touch(acc, s), 0, false)
        else
          var r := Gather(env, g, samples[1..], false, s.t, Absorb(acc, kind, s));
          r.(consumed := r.consumed + 1)
  }

  /** No NaN unless in a series outside the histogram. */
  predicate Numeric(env: Env, g: Group, samples: seq<RefSample>) {
    forall i :: 0 <= i < |samples| ==> Readable(env, g, samples[i])
  }

  predicate Readable(env: Env, g: Group, s: RefSample) {
    IsMember(env, g, s) ==> s.v.Num?
  }

  /** The histogram sample is left out if a series is new to the cache or the count is missing. */
  predicate Complete(acc: Acc) {
    !acc.skip && acc.reset != 0
  }

  ghost predicate IsDistribution(d: Distribution, acc: Acc) {
    exists bs: seq<Bucket> :: Sorted(bs) && multiset(bs) == acc.buckets && d == Build(acc.count, acc.sum, bs)
  }

  /** The cache behaves as `env` says. */
  ghost predicate Describes(env: Env, cache: SeriesCache)
    reads cache`entries, cache.entries.Values
  {
    cache.Valid() && cache.Infos() == env.infos
  }

  method GetEntry(cache: SeriesCache, env: Env, ref: nat) returns (l: Lookup)
    requires Describes(env, cache)
    ensures l == Get(env, ref)
  {
    if ref !in cache.entries {
      return Missing;
    }
    var e := cache.entries[ref];
    assert cache.Infos()[ref] == e.info;
    if !e.info.populated && ref in env.fails {
      return Failure;
    }
    if !e.info.populated {
      return Missing;
    }
    return Entry(e.info);
  }

  /** Sorts and converts what the group loop collected. */
  method Finish(bounds: seq<Bound>, values: seq<int>, count: real, sum: real)
    returns (d: Distribution, ghost bs: seq<Bucket>)
    requires |bounds| == |values|
    ensures Sorted(bs) && multiset(bs) == multiset(Zip(bounds, values)) && d == Build(count, sum, bs)
  {
    var dist := new Buckets(bounds, values);
    dist.Sort();
    bs := dist.Pairs();
    d := dist.Deaccumulate(count, sum);
  }

  lemma ZipSnoc(bounds: seq<Bound>, values: seq<int>, b: Bound, v: int)
    requires |bounds| == |values|
    ensures Zip(bounds + [b], values + [v]) == Zip(bounds, values) + [Bucket(b, v)]
  {
  }

  /** The local variables of the group loop. */
  datatype Locals = Locals(sum: real, count: real, reset: int, bounds: seq<Bound>, values: seq<int>, skip: bool)

  ghost function AccOf(v: Locals, resets: map<nat, ResetState>): Acc
    requires |v.bounds| == |v.values|
  {
    Acc(v.sum, v.count, v.reset, multiset(Zip(v.bounds, v.values)), v.skip, resets)
  }

  /** The part of the loop body from the getResetAdjusted call on; `more` unless the name has no known suffix. */
  method ReadMember(cache: SeriesCache, env: Env, base: string, lset: seq<Label>, s: RefSample, v0: Locals)
    returns (v: Locals, more: bool)
    requires Describes(env, cache) && s.v.Num? && base <= LabelValue(lset, NAME) && |v0.bounds| == |v0.values|
    modifies cache.entries.Values
    ensures Describes(env, cache) && |v.bounds| == |v.values|
    ensures more <==> KindOf(env, base, lset) != Misnamed
    ensures AccOf(v, cache.Resets()) == Absorb(AccOf(v0, old(cache.Resets())), KindOf(env, base, lset), s)
  {
    v := v0;
    ghost var acc := AccOf(v0, cache.Resets());
    var rt, x, ok := cache.GetResetAdjusted(s.ref, s.t, s.v.x);
    assert cache.Resets() == Touch(acc, s).resets && Adjusted(rt, x, ok) == AdjustedIn(acc, s);
    var suffix := LabelValue(lset, NAME)[|base|..];
    if suffix == "_sum" {
      v := v.(sum := x);
    } else if suffix == "_count" {
      v := v.(count := x, reset := rt);
    } else if suffix == "_bucket" {
      var le := LabelValue(lset, LE);
      if le !in env.bounds {
        return v, true;
      }
      ZipSnoc(v.bounds, v.values, env.bounds[le], Trunc(x));
      v := v.(bounds := v.bounds + [env.bounds[le]], values := v.values + [Trunc(x)]);
    } else {
      return v, false;
    }
    if !ok {
      v := v.(skip := true);
    }
    more := true;
  }

  function Shift(r: Gathered, n: nat): Gathered {
    r.(consumed := r.consumed + n)
  }

  /** Gather from index i on, with the samples before it counted. */
  ghost predicate GatherFrom(whole: Gathered, env: Env, g: Group, samples: seq<RefSample>, i: nat, last: int, acc: Acc)
    requires Numeric(env, g, samples) && i <= |samples|
  {
    whole == Shift(Gather(env, g, samples[i..], i == 0, last, acc), i)
  }

  /** One turn of the group loop on sample s takes `acc` to `next`; it goes on, with some time, or not, or fails. */
  predicate IsTurn(env: Env, g: Group, s: RefSample, first: bool, last: int, acc: Acc, next: Acc, more: bool,
                   failed: bool, t: int)
    requires Readable(env, g, s)
  {
    match Classify(env, g, s.ref)
    case Broken => next == acc && !more && failed
    case Foreign => next == acc && !more && !failed
    case Unlisted => next == acc && more && !failed && t == last
    case Member(kind) =>
      && !failed
      && if !first && s.t != last then next == acc && !more
         else next == Absorb(acc, kind, s) && t == s.t && (more <==> kind != Misnamed)
  }

  lemma GatherNext(whole: Gathered, env: Env, g: Group, samples: seq<RefSample>, i: nat, last: int, acc: Acc, next: Acc,
                   more: bool, failed: bool, t: int)
    requires Numeric(env, g, samples) && i < |samples| && GatherFrom(whole, env, g, samples, i, last, acc)
    requires Readable(env, g, samples[i]) && IsTurn(env, g, samples[i], i == 0, last, acc, next, more, failed, t)
    ensures if more then !failed && GatherFrom(whole, env, g, samples, i + 1, t, next)
            else whole == Gathered(next, i, failed)
  {
    assert samples[i..][0] == samples[i] && samples[i..][1..] == samples[i + 1..];
  }

  /** Whether the series has the base name as a prefix of its own and the labels of the group. */
  method GetMember(cache: SeriesCache, env: Env, g: Group, ref: nat) returns (l: Lookup, belongs: bool)
    requires Describes(env, cache)
    ensures l == Get(env, ref)
    ensures belongs ==> l.Entry? && g.base <= LabelValue(l.info.lset, NAME)
    ensures l.Entry? ==>
      Classify(env, g, ref) == if belongs then Member(KindOf(env, g.base, l.info.lset)) else Foreign
  {
    l := GetEntry(cache, env, ref);
    belongs := false;
    if l.Entry? && g.base <= LabelValue(l.info.lset, NAME) {
      belongs := HistogramLabelsEqual(l.info.lset, g.lset);
    }
  }

  /** The body of the group loop. */
  method GatherTurn(cache: SeriesCache, env: Env, g: Group, s: RefSample, first: bool, last: int, v0: Locals)
    returns (v: Locals, more: bool, failed: bool, t: int)
    requires Describes(env, cache) && Readable(env, g, s) && |v0.bounds| == |v0.values|
    modifies cache.entries.Values
    ensures Describes(env, cache) && |v.bounds| == |v.values|
    ensures IsTurn(env, g, s, first, last, AccOf(v0, old(cache.Resets())), AccOf(v, cache.Resets()), more, failed, t)
  {
    v, more, failed, t := v0, false, false, last;
    var l, belongs := GetMember(cache, env, g, s.ref);
    if l.Failure? {
      return v, false, true, t;
    }
    if l.Missing? {
      return v, true, false, t;
    }
    if !belongs || (!first && s.t != last) {
      return v, false, false, t;
    }
    t := s.t;
    v, more := ReadMember(cache, env, g.base, l.info.lset, s, v);
  }

  /** The group loop of buildDistribution. */
  method GatherLoop(cache: SeriesCache, env: Env, g: Group, samples: seq<RefSample>)
    returns (v: Locals, consumed: nat, failed: bool)
    requires Describes(env, cache) && Numeric(env, g, samples)
    modifies cache.entries.Values
    ensures Describes(env, cache)
    ensures |v.bounds| == |v.values|
    ensures Gathered(AccOf(v, cache.Resets()), consumed, failed)
      == Gather(env, g, samples, true, 0, Start(old(cache.Resets())))
  {
    v, consumed, failed := Locals(0.0, 0.0, 0, [], [], false), 0, false;
    var last := 0;
    ghost var acc := Start(cache.Resets());
    ghost var whole := Gather(env, g, samples, true, 0, acc);
    var i := 0;
    assert samples[0..] == samples;
    while i < |samples|
      invariant 0 <= i <= |samples| && consumed == i
      invariant Describes(env, cache) && |v.bounds| == |v.values| && !failed
      invariant acc == AccOf(v, cache.Resets())
      invariant GatherFrom(whole, env, g, samples, i, last, acc)
    {
      var s, more, t := samples[i], false, last;
      assert Readable(env, g, s);
      v, more, failed, t := GatherTurn(cache, env, g, s, i == 0, last, v);
      GatherNext(whole, env, g, samples, i, last, acc, AccOf(v, cache.Resets()), more, failed, t);
      last, acc := t, AccOf(v, cache.Resets());
      if !more {
        return;
      }
      consumed := consumed + 1;
      i := i + 1;
    }
    assert samples[i..] == [];
  }

  lemma MomentsIfDistinct(bs: seq<Bucket>, count: real, sum: real)
    requires Sorted(bs)
    ensures DistinctIn(multiset(bs)) ==> HasMoments(Build(count, sum, bs), count, sum)
  {
    if DistinctIn(multiset(bs)) {
      DistinctSeq(bs);
      BuildHasMoments(count, sum, bs);
    }
  }

  /** buildDistribution: the distribution if the histogram is complete, its reset time and what is left. */
  method BuildDistribution(cache: SeriesCache, env: Env, g: Group, samples: seq<RefSample>)
    returns (d: Option<Distribution>, reset: int, rest: seq<RefSample>, failed: bool)
    requires Describes(env, cache) && Numeric(env, g, samples)
    modifies cache.entries.Values
    ensures Describes(env, cache)
    ensures var r := Gather(env, g, samples, true, 0, Start(old(cache.Resets())));
      && cache.Resets() == r.acc.resets && failed == r.failed
      && rest == (if failed then samples else samples[r.consumed..])
      && (d.Some? <==> !failed && Complete(r.acc))
      && (d.Some? ==> IsDistribution(d.value, r.acc) && reset == r.acc.reset)
      && (d.Some? && DistinctIn(r.acc.buckets) ==> HasMoments(d.value, r.acc.count, r.acc.sum))
  {
    var v, consumed, err := GatherLoop(cache, env, g, samples);
    if err {
      return None, 0, samples, true;
    }
    if v.skip || v.reset == 0 {
      return None, 0, samples[consumed..], false;
    }
    var dist, bs := Finish(v.bounds, v.values, v.count, v.sum);
    MomentsIfDistinct(bs, v.count, v.sum);
    return Some(dist), v.reset, samples[consumed..], false;
  }

  // ---- The order of a histogram's series ----

  /** A sample that the group loop consumes whatever comes before it at time `t`. */
  predicate Plain(env: Env, g: Group, t: int, s: RefSample) {
    match Classify(env, g, s.ref)
    case Unlisted => true
    case Member(kind) => kind != Misnamed && s.t == t
    case _ => false
  }

  predicate IsMember(env: Env, g: Group, s: RefSample) {
    Classify(env, g, s.ref).Member?
  }

  function Take(env: Env, g: Group, acc: Acc, s: RefSample): Acc
    requires Readable(env, g, s)
  {
    match Classify(env, g, s.ref)
    case Member(kind) => Absorb(acc, kind, s)
    case _ => acc
  }

  function TakeAll(env: Env, g: Group, acc: Acc, p: seq<RefSample>): Acc
    requires Numeric(env, g, p)
    decreases p
  {
    if p == [] then acc else TakeAll(env, g, Take(env, g, acc, p[0]), p[1..])
  }

  /** Reading a stretch of plain samples and going on from there. */
  lemma {:induction false} GatherPlain(env: Env, g: Group, t: int, p: seq<RefSample>, rest: seq<RefSample>,
                                       first: bool, last: int, acc: Acc)
    requires Numeric(env, g, p) && Numeric(env, g, rest) && (forall s <- p :: Plain(env, g, t, s)) && p != []
    requires if first then IsMember(env, g, p[0]) else last == t
    ensures Gather(env, g, p + rest, first, last, acc)
      == Shift(Gather(env, g, rest, false, t, TakeAll(env, g, acc, p)), |p|)
    decreases p
  {
    assert p[0] in p && (p + rest)[0] == p[0] && (p + rest)[1..] == p[1..] + rest;
    var next := Take(env, g, acc, p[0]);
    if p[1..] == [] {
      assert p[1..] + rest == rest;
    } else {
      GatherPlain(env, g, t, p[1..], rest, false, t, next);
    }
  }

  /** Two samples whose order cannot matter: different series, not two sums and not two counts. */
  predicate Apart(env: Env, g: Group, a: RefSample, b: RefSample) {
    && a.ref != b.ref
    && !(Classify(env, g, a.ref) == Member(SumOf) && Classify(env, g, b.ref) == Member(SumOf))
    && !(Classify(env, g, a.ref) == Member(CountOf) && Classify(env, g, b.ref) == Member(CountOf))
  }

  lemma NotesCommute(acc: Acc, k: Kind, a: Adjusted, l: Kind, b: Adjusted)
    requires !(k == SumOf && l == SumOf) && !(k == CountOf && l == CountOf)
    ensures Note(Note(acc, k, a), l, b) == Note(Note(acc, l, b), k, a)
  {
  }

  lemma TouchNote(acc: Acc, k: Kind, a: Adjusted, s: RefSample)
    requires s.v.Num?
    ensures Touch(Note(acc, k, a), s) == Note(Touch(acc, s), k, a)
    ensures AdjustedIn(Note(acc, k, a), s) == AdjustedIn(acc, s)
  {
  }

  lemma TouchesCommute(acc: Acc, a: RefSample, b: RefSample)
    requires a.v.Num? && b.v.Num? && a.ref != b.ref
    ensures Touch(Touch(acc, a), b) == Touch(Touch(acc, b), a)
    ensures AdjustedIn(Touch(acc, a), b) == AdjustedIn(acc, b)
  {
    assert Touch(Touch(acc, a), b).resets == Touch(Touch(acc, b), a).resets;
  }

  lemma {:induction false} AbsorbsCommute(acc: Acc, k: Kind, a: RefSample, l: Kind, b: RefSample)
    requires a.v.Num? && b.v.Num? && a.ref != b.ref
    requires !(k == SumOf && l == SumOf) && !(k == CountOf && l == CountOf)
    ensures Absorb(Absorb(acc, k, a), l, b) == Absorb(Absorb(acc, l, b), k, a)
  {
    var x, y := AdjustedIn(acc, a), AdjustedIn(acc, b);
    TouchNote(Touch(acc, a), k, x, b);
    TouchNote(Touch(acc, b), l, y, a);
    TouchesCommute(acc, a, b);
    TouchesCommute(acc, b, a);
    NotesCommute(Touch(Touch(acc, a), b), k, x, l, y);
  }

  lemma {:induction false} TakesCommute(env: Env, g: Group, acc: Acc, a: RefSample, b: RefSample)
    requires Readable(env, g, a) && Readable(env, g, b) && Apart(env, g, a, b)
    ensures Take(env, g, Take(env, g, acc, a), b) == Take(env, g, Take(env, g, acc, b), a)
  {
    var c, d := Classify(env, g, a.ref), Classify(env, g, b.ref);
    if c.Member? && d.Member? {
      AbsorbsCommute(acc, c.kind, a, d.kind, b);
    }
  }

  lemma {:induction false} TakeAllConcat(env: Env, g: Group, acc: Acc, p: seq<RefSample>, q: seq<RefSample>)
    requires Numeric(env, g, p) && Numeric(env, g, q)
    ensures TakeAll(env, g, acc, p + q) == TakeAll(env, g, TakeAll(env, g, acc, p), q)
    decreases p
  {
    if p == [] {
      assert p + q == q;
    } else {
      assert (p + q)[0] == p[0] && (p + q)[1..] == p[1..] + q;
      TakeAllConcat(env, g, Take(env, g, acc, p[0]), p[1..], q);
    }
  }

  lemma {:induction false} MoveToFront(env: Env, g: Group, acc: Acc, u: seq<RefSample>, x: RefSample)
    requires Numeric(env, g, u) && Readable(env, g, x) && forall y <- u :: Apart(env, g, y, x)
    ensures TakeAll(env, g, Take(env, g, acc, x), u) == Take(env, g, TakeAll(env, g, acc, u), x)
    decreases u
  {
    if u != [] {
      assert u[0] in u && forall y <- u[1..] :: y in u;
      TakesCommute(env, g, acc, x, u[0]);
      MoveToFront(env, g, Take(env, g, acc, u[0]), u[1..], x);
    }
  }

  ghost predicate AllApart(env: Env, g: Group, p: seq<RefSample>) {
    forall i, j :: 0 <= i < |p| && 0 <= j < |p| && i != j ==> Apart(env, g, p[i], p[j])
  }

  lemma TakeOutOf(env: Env, g: Group, acc: Acc, u: seq<RefSample>, x: RefSample, w: seq<RefSample>)
    requires Numeric(env, g, u) && Numeric(env, g, w) && Readable(env, g, x) && forall y <- u :: Apart(env, g, y, x)
    ensures TakeAll(env, g, acc, u + [x] + w) == TakeAll(env, g, Take(env, g, acc, x), u + w)
  {
    TakeAllConcat(env, g, acc, u + [x], w);
    TakeAllConcat(env, g, acc, u, [x]);
    TakeOne(env, g, TakeAll(env, g, acc, u), x);
    MoveToFront(env, g, acc, u, x);
    TakeAllConcat(env, g, Take(env, g, acc, x), u, w);
  }

  lemma SplitAround<T>(q: seq<T>, x: T) returns (u: seq<T>, w: seq<T>)
    requires x in multiset(q)
    ensures q == u + [x] + w && multiset(u + w) == multiset(q) - multiset{x}
    ensures (forall y <- u :: y in q) && (forall y <- w :: y in q)
  {
    var k :| 0 <= k < |q| && q[k] == x;
    u, w := q[..k], q[k + 1..];
    assert q == u + [x] + w;
    assert multiset(q) == multiset(u) + multiset{x} + multiset(w);
  }

  lemma RestApart(env: Env, g: Group, p: seq<RefSample>, u: seq<RefSample>, w: seq<RefSample>)
    requires p != [] && AllApart(env, g, p) && multiset(u + w) == multiset(p[1..])
    ensures AllApart(env, g, p[1..]) && forall y <- u :: Apart(env, g, y, p[0])
  {
    forall y <- u ensures Apart(env, g, y, p[0]) {
      assert y in multiset(u + w);
      assert y in multiset(p[1..]);
      var j :| 0 <= j < |p[1..]| && p[1..][j] == y;
      assert p[j + 1] == y;
    }
  }

  lemma NumericIn(env: Env, g: Group, q: seq<RefSample>, u: seq<RefSample>)
    requires Numeric(env, g, q) && forall y <- u :: y in q
    ensures Numeric(env, g, u)
  {
    forall i | 0 <= i < |u| ensures Readable(env, g, u[i]) {
      assert u[i] in q;
    }
  }

  lemma DropFirst<T>(p: seq<T>)
    requires p != []
    ensures p[0] in multiset(p) && multiset(p[1..]) == multiset(p) - multiset{p[0]}
  {
    assert p == [p[0]] + p[1..];
  }

  lemma {:induction false} TakeAllPermutes(env: Env, g: Group, acc: Acc, p: seq<RefSample>, q: seq<RefSample>)
    requires Numeric(env, g, p) && Numeric(env, g, q) && AllApart(env, g, p) && multiset(p) == multiset(q)
    ensures TakeAll(env, g, acc, p) == TakeAll(env, g, acc, q)
    decreases p
  {
    assert |p| == |multiset(p)| == |q|;
    if p != [] {
      DropFirst(p);
      var u, w := SplitAround(q, p[0]);
      NumericIn(env, g, q, u);
      NumericIn(env, g, q, w);
      RestApart(env, g, p, u, w);
      TakeOutOf(env, g, acc, u, p[0], w);
      TakeAllPermutes(env, g, Take(env, g, acc, p[0]), p[1..], u + w);
    }
  }

  lemma TakeOne(env: Env, g: Group, acc: Acc, x: RefSample)
    requires Readable(env, g, x)
    ensures TakeAll(env, g, acc, [x]) == Take(env, g, acc, x)
  {
    assert [x][1..] == [];
  }

  /** However the series of one histogram are ordered in the record, buildDistribution reads the same sum, count, reset
      time and buckets, leaves the same reset state, and stops at the same place. */
  lemma {:induction false} GatherIgnoresOrder(env: Env, g: Group, t: int, p: seq<RefSample>, q: seq<RefSample>,
                                              rest: seq<RefSample>, resets: map<nat, ResetState>)
    requires Numeric(env, g, p) && Numeric(env, g, q) && Numeric(env, g, rest) && multiset(p) == multiset(q) && p != []
    requires AllApart(env, g, p) && forall s <- p :: Plain(env, g, t, s)
    requires IsMember(env, g, p[0]) && IsMember(env, g, q[0])
    ensures Gather(env, g, p + rest, true, 0, Start(resets)) == Gather(env, g, q + rest, true, 0, Start(resets))
  {
    assert |p| == |multiset(p)| == |q|;
    forall s <- q ensures Plain(env, g, t, s) {
      assert s in multiset(q);
    }
    GatherPlain(env, g, t, p, rest, true, 0, Start(resets));
    GatherPlain(env, g, t, q, rest, true, 0, Start(resets));
    TakeAllPermutes(env, g, Start(resets), p, q);
  }

  ghost predicate DistinctIn(buckets: multiset<Bucket>) {
    && (forall a <- buckets :: buckets[a] == 1)
    && (forall a, b :: a in buckets && b in buckets && a.bound == b.bound ==> a == b)
  }

  lemma {:induction false} DistinctSeq(bs: seq<Bucket>)
    requires DistinctIn(multiset(bs))
    ensures DistinctBounds(bs)
  {
    forall i, j | 0 <= i < j < |bs| ensures bs[i].bound != bs[j].bound {
      assert bs == bs[..i] + [bs[i]] + bs[i + 1..j] + [bs[j]] + bs[j + 1..];
      var others := multiset(bs[..i]) + multiset(bs[i + 1..j]) + multiset(bs[j + 1..]);
      assert multiset(bs) == others + multiset{bs[i], bs[j]};
      assert bs[i] in multiset(bs) && bs[j] in multiset(bs);
    }
  }

  /** With distinct bounds what was read determines the distribution. */
  lemma {:induction false} DistributionUnique(d: Distribution, e: Distribution, acc: Acc)
    requires IsDistribution(d, acc) && IsDistribution(e, acc) && DistinctIn(acc.buckets)
    ensures d == e
  {
    var a :| Sorted(a) && multiset(a) == acc.buckets && d == Build(acc.count, acc.sum, a);
    var b :| Sorted(b) && multiset(b) == acc.buckets && e == Build(acc.count, acc.sum, b);
    DistinctSeq(a);
    SortingUnique(a, b);
  }

  // ---- How far a call gets ----

  /** How many samples the group loop consumes and whether it fails: values play no part. */
  function Extent(env: Env, g: Group, samples: seq<RefSample>, first: bool, last: int): (r: (nat, bool))
    ensures r.0 <= |samples|
    decreases samples
  {
    if samples == [] then (0, false)
    else
      match Classify(env, g, samples[0].ref)
      case Broken => (0, true)
      case Foreign => (0, false)
      case Unlisted => var r := Extent(env, g, samples[1..], false, last); (r.0 + 1, r.1)
      case Member(kind) =>
        if (!first && samples[0].t != last) || kind == Misnamed then (0, false)
        else var r := Extent(env, g, samples[1..], false, samples[0].t); (r.0 + 1, r.1)
  }

  lemma {:induction false} GatherExtent(env: Env, g: Group, samples: seq<RefSample>, first: bool, last: int, acc: Acc)
    requires Numeric(env, g, samples)
    ensures var r := Gather(env, g, samples, first, last, acc);
      (r.consumed, r.failed) == Extent(env, g, samples, first, last)
    decreases samples
  {
    if samples != [] {
      match Classify(env, g, samples[0].ref) {
        case Unlisted => GatherExtent(env, g, samples[1..], false, last, acc);
        case Member(kind) =>
          GatherExtent(env, g, samples[1..], false, samples[0].t, Absorb(acc, kind, samples[0]));
        case _ =>
      }
    }
  }

  /** The group loop consumes the longest run of unlisted series and members of the histogram at the time of the first
      member, and fails exactly when a lookup failure ends that run. */
  lemma {:induction false} ExtentIsMaximal(env: Env, g: Group, samples: seq<RefSample>, first: bool, last: int)
    requires samples != []
    requires first ==> IsMember(env, g, samples[0]) && last == samples[0].t
    ensures var (n, failed) := Extent(env, g, samples, first, last);
      && (forall i :: 0 <= i < n ==> Plain(env, g, last, samples[i]))
      && (n < |samples| ==> !Plain(env, g, last, samples[n]))
      && (failed <==> n < |samples| && Classify(env, g, samples[n].ref).Broken?)
    decreases samples
  {
    if Plain(env, g, last, samples[0]) && |samples| > 1 {
      ExtentIsMaximal(env, g, samples[1..], false, last);
    }
  }

  // ---- next ----

  datatype OutValue = Number(x: real) | Whole(n: int) | Dist(d: Distribution)

  /** A finished point: its series, interval and value. */
  datatype Output = Output(hash: nat, start: int, end: int, value: OutValue)

  datatype Draft = Nothing | Draft(start: int, value: OutValue)

  function GroupOf(info: Info): Group {
    Group(info.metric, info.lset)
  }

  /** How many samples a call of next uses up, and whether it reports an error. */
  function NextExtent(env: Env, samples: seq<RefSample>): (r: (nat, bool))
    requires samples != []
    ensures r.0 <= |samples|
  {
    if samples[0].v.NaN? then (1, false)
    else match Get(env, samples[0].ref)
      case Failure => (0, true)
      case Missing => (1, false)
      case Entry(info) =>
        if !info.exported then (1, false)
        else match info.metricType
          case Histogram => var r := Extent(env, GroupOf(info), samples, true, 0); if r.1 then (0, true) else r
          case Summary => (1, info.suffix !in {"_sum", "_count", ""})
          case Other => (1, true)
          case _ => (1, false)
  }

  /** The nearest integer, halves away from zero. */
  function Round(v: real): (n: int)
    ensures -0.5 <= n as real - v <= 0.5
  {
    if v >= 0.0 then (v + 0.5).Floor else -((0.5 - v).Floor)
  }

  function BuildTypedValue(valueType: ValueType, v: real): OutValue {
    if valueType == Int64 then Whole(Round(v)) else Number(v)
  }

  /** The point made of a cumulative series, if its reset time is known. */
  function Cumulated(a: Adjusted, value: OutValue): Draft {
    if a.ok then Draft(a.start, value) else Nothing
  }

  /** The point next makes before the interval filter sees it; `acc` carries the reset state. */
  ghost predicate Drafts(env: Env, samples: seq<RefSample>, resets: map<nat, ResetState>, draft: Draft,
                         after: map<nat, ResetState>)
    requires samples != [] && Legible(env, samples)
  {
    var s := samples[0];
    if s.v.NaN? then draft == Nothing && after == resets
    else
      var a, touched := AdjustedIn(Start(resets), s), Touch(Start(resets), s).resets;
      match Get(env, s.ref)
      case Entry(info) =>
        if !info.exported then draft == Nothing && after == resets
        else (match info.metricType
          case Counter => draft == Cumulated(a, BuildTypedValue(info.valueType, a.value)) && after == touched
          case Gauge => draft == Draft(0, BuildTypedValue(info.valueType, s.v.x)) && after == resets
          case Untyped => draft == Draft(0, BuildTypedValue(info.valueType, s.v.x)) && after == resets
          case Summary =>
            if info.suffix == "_sum" then draft == Cumulated(a, Number(a.value)) && after == touched
            else if info.suffix == "_count" then draft == Cumulated(a, Whole(Trunc(a.value))) && after == touched
            else if info.suffix == "" then draft == Draft(0, Number(s.v.x)) && after == resets
            else draft == Nothing && after == resets
          case Histogram =>
            var r := Gather(env, GroupOf(info), samples, true, 0, Start(resets));
            && after == r.acc.resets
            && (if !r.failed && Complete(r.acc)
                then draft.Draft? && draft.start == r.acc.reset && draft.value.Dist?
                  && IsDistribution(draft.value.d, r.acc)
                else draft == Nothing)
          case Other => draft == Nothing && after == resets)
      case _ => draft == Nothing && after == resets
  }

  /** When the first sample belongs to a histogram, none of the samples of that histogram is NaN. */
  predicate Legible(env: Env, samples: seq<RefSample>) {
    (samples != [] && samples[0].v.Num? && samples[0].ref in env.infos
     && env.infos[samples[0].ref].metricType.Histogram?)
    ==> Numeric(env, GroupOf(env.infos[samples[0].ref]), samples)
  }

  /** next up to the interval filter: what the metric type makes of the sample. */
  method MakePoint(cache: SeriesCache, env: Env, info: Info, samples: seq<RefSample>)
    returns (draft: Draft, rest: seq<RefSample>, failed: bool)
    requires Describes(env, cache) && samples != [] && Legible(env, samples)
    requires samples[0].v.Num? && Get(env, samples[0].ref) == Entry(info) && info.exported
    modifies cache.entries.Values
    ensures Describes(env, cache)
    ensures rest == samples[NextExtent(env, samples).0..] && failed == NextExtent(env, samples).1
    ensures Drafts(env, samples, old(cache.Resets()), draft, cache.Resets())
  {
    var s := samples[0];
    rest, failed, draft := samples[1..], false, Nothing;
    match info.metricType {
      case Counter =>
        var reset, v, ok := cache.GetResetAdjusted(s.ref, s.t, s.v.x);
        if ok {
          draft := Draft(reset, BuildTypedValue(info.valueType, v));
        }
      case Gauge => draft := Draft(0, BuildTypedValue(info.valueType, s.v.x));
      case Untyped => draft := Draft(0, BuildTypedValue(info.valueType, s.v.x));
      case Summary =>
        if info.suffix == "_sum" || info.suffix == "_count" {
          var reset, v, ok := cache.GetResetAdjusted(s.ref, s.t, s.v.x);
          if ok {
            draft := Draft(reset, if info.suffix == "_sum" then Number(v) else Whole(Trunc(v)));
          }
        } else if info.suffix == "" {
          draft := Draft(0, Number(s.v.x));
        } else {
          failed := true;
        }
      case Histogram =>
        GatherExtent(env, GroupOf(info), samples, true, 0, Start(cache.Resets()));
        assert samples[0..] == samples;
        var d, reset;
        d, reset, rest, failed := BuildDistribution(cache, env, GroupOf(info), samples);
        if d.Some? {
          draft := Draft(reset, Dist(d.value));
        }
      case Other => failed := true;
    }
  }

  /** The sample that goes to the tracker of its series, if an aggregated counter covers it. */
  function Tracked(env: Env, samples: seq<RefSample>): Option<RefSample> {
    if samples == [] || samples[0].v.NaN? then None
    else match Get(env, samples[0].ref)
      case Entry(info) => if info.tracked then Some(samples[0]) else None
      case _ => None
  }

  /** The checks before the metric type is looked at. */
  method CheckAndMake(cache: SeriesCache, env: Env, samples: seq<RefSample>)
    returns (draft: Draft, rest: seq<RefSample>, failed: bool, fed: Option<RefSample>)
    requires Describes(env, cache) && samples != [] && Legible(env, samples)
    modifies cache.entries.Values
    ensures Describes(env, cache)
    ensures rest == samples[NextExtent(env, samples).0..] && failed == NextExtent(env, samples).1
    ensures Drafts(env, samples, old(cache.Resets()), draft, cache.Resets())
    ensures draft.Draft? ==> samples[0].ref in env.infos
    ensures fed == Tracked(env, samples)
  {
    fed := None;
    if samples[0].v.NaN? {
      return Nothing, samples[1..], false, fed;
    }
    var l := GetEntry(cache, env, samples[0].ref);
    if l.Failure? {
      assert samples[0..] == samples;
      return Nothing, samples, true, fed;
    }
    if l.Missing? {
      return Nothing, samples[1..], false, fed;
    }
    if l.info.tracked {
      fed := Some(samples[0]);
    }
    if !l.info.exported {
      return Nothing, samples[1..], false, fed;
    }
    draft, rest, failed := MakePoint(cache, env, l.info, samples);
  }

  /** The series of the first sample. */
  function HashOf(env: Env, samples: seq<RefSample>): nat {
    if samples != [] && samples[0].ref in env.infos then env.infos[samples[0].ref].hash else 0
  }

  /** The interval filter lets the point through. */
  predicate Passes(intervals: map<nat, Interval>, hash: nat, draft: Draft, t: int) {
    draft.Draft? && (hash in intervals ==> intervals[hash].Accepts(draft.start, t))
  }

  /** The point that goes out, and the intervals after it. */
  function Emitted(env: Env, samples: seq<RefSample>, draft: Draft, intervals: map<nat, Interval>): Option<Output>
    requires samples != []
  {
    var hash := HashOf(env, samples);
    if Passes(intervals, hash, draft, samples[0].t)
    then Some(Output(hash, draft.start, samples[0].t, draft.value)) else None
  }

  function Recorded(intervals: map<nat, Interval>, out: Option<Output>): map<nat, Interval> {
    if out.Some? then intervals[out.value.hash := Span(out.value)] else intervals
  }

  function Span(o: Output): Interval {
    Interval(o.start, o.end)
  }

  /** next: `draft` is the point made of the samples before the interval filter, `fed` the sample given to the
      tracker. */
  method Next(cache: SeriesCache, env: Env, samples: seq<RefSample>)
    returns (out: Option<Output>, rest: seq<RefSample>, failed: bool, fed: Option<RefSample>, ghost draft: Draft)
    requires Describes(env, cache) && samples != [] && Legible(env, samples)
    modifies cache`intervals, cache.entries.Values
    ensures Describes(env, cache)
    ensures rest == samples[NextExtent(env, samples).0..] && failed == NextExtent(env, samples).1
    ensures Drafts(env, samples, old(cache.Resets()), draft, cache.Resets())
    ensures out == Emitted(env, samples, draft, old(cache.intervals))
    ensures cache.intervals == Recorded(old(cache.intervals), out)
    ensures fed == Tracked(env, samples)
  {
    var point;
    point, rest, failed, fed := CheckAndMake(cache, env, samples);
    draft := point;
    out := None;
    if point.Draft? {
      var hash := cache.entries[samples[0].ref].info.hash;
      assert cache.Infos()[samples[0].ref].hash == hash;
      var ok := cache.UpdateSampleInterval(hash, point.start, samples[0].t);
      if ok {
        out := Some(Output(hash, point.start, samples[0].t, point.value));
      }
    }
  }

  /** What goes out is the drafted point, under the hash of its series and up to the time of the first sample; and it
      goes out exactly if no point with that hash has gone out or its interval extends or follows the last one. */
  lemma EmittedAsDrafted(env: Env, samples: seq<RefSample>, resets: map<nat, ResetState>, draft: Draft,
                         after: map<nat, ResetState>, intervals: map<nat, Interval>)
    requires samples != [] && Legible(env, samples) && Drafts(env, samples, resets, draft, after)
    ensures var out := Emitted(env, samples, draft, intervals);
      if draft.Nothing? then out == None
      else
        && samples[0].ref in env.infos
        && var hash, t := env.infos[samples[0].ref].hash, samples[0].t;
        && (out.Some? <==>
              || hash !in intervals
              || (draft.start == intervals[hash].start && t > intervals[hash].end)
              || (draft.start > intervals[hash].start && draft.start >= intervals[hash].end))
        && (out.Some? ==> out.value == Output(hash := hash, start := draft.start, end := t, value := draft.value))
  {
  }

  /** Each series of the histogram occurs once and plays its own part: one sum, one count, distinct bounds. */
  ghost predicate OwnParts(env: Env, g: Group, p: seq<RefSample>) {
    forall i, j :: 0 <= i < |p| && 0 <= j < |p| && i != j ==>
      p[i].ref != p[j].ref && (Classify(env, g, p[i].ref) == Classify(env, g, p[j].ref) ==> !Placed(env, g, p[i]))
  }

  /** A sum, a count or a bucket. */
  predicate Placed(env: Env, g: Group, s: RefSample) {
    match Classify(env, g, s.ref)
    case Member(kind) => kind.SumOf? || kind.CountOf? || kind.BucketOf?
    case _ => false
  }

  lemma OwnPartsApart(env: Env, g: Group, p: seq<RefSample>)
    requires OwnParts(env, g, p)
    ensures AllApart(env, g, p)
  {
  }

  ghost predicate NoBound(buckets: multiset<Bucket>, b: Bound) {
    forall x <- buckets :: x.bound != b
  }

  /** No sample of p brings a bound that has been read already. */
  ghost predicate NewBounds(env: Env, g: Group, p: seq<RefSample>, buckets: multiset<Bucket>) {
    forall i, b :: 0 <= i < |p| && Classify(env, g, p[i].ref) == Member(BucketOf(b)) ==> NoBound(buckets, b)
  }

  lemma TakeBuckets(env: Env, g: Group, acc: Acc, s: RefSample)
    requires Readable(env, g, s)
    ensures var t := Take(env, g, acc, s);
      if Classify(env, g, s.ref).Member? && Classify(env, g, s.ref).kind.BucketOf?
      then exists v :: t.buckets == acc.buckets + multiset{Bucket(Classify(env, g, s.ref).kind.bound, v)}
      else t.buckets == acc.buckets
  {
    if Classify(env, g, s.ref).Member? && Classify(env, g, s.ref).kind.BucketOf? {
      var v := Trunc(AdjustedIn(acc, s).value);
      assert Take(env, g, acc, s).buckets == acc.buckets + multiset{Bucket(Classify(env, g, s.ref).kind.bound, v)};
    }
  }

  lemma AddDistinct(buckets: multiset<Bucket>, b: Bucket)
    requires DistinctIn(buckets) && NoBound(buckets, b.bound)
    ensures DistinctIn(buckets + multiset{b})
  {
    assert b !in buckets;
  }

  lemma TailBounds(env: Env, g: Group, p: seq<RefSample>, buckets: multiset<Bucket>, b: Bucket)
    requires OwnParts(env, g, p) && p != [] && Classify(env, g, p[0].ref) == Member(BucketOf(b.bound))
    requires NewBounds(env, g, p, buckets)
    ensures NewBounds(env, g, p[1..], buckets + multiset{b})
  {
    forall i, c | 0 <= i < |p[1..]| && Classify(env, g, p[1..][i].ref) == Member(BucketOf(c))
      ensures NoBound(buckets + multiset{b}, c)
    {
      assert p[1..][i] == p[i + 1] && NoBound(buckets, c);
      assert c != b.bound;
    }
  }

  lemma {:induction false} TakeKeepsDistinct(env: Env, g: Group, acc: Acc, p: seq<RefSample>)
    requires Numeric(env, g, p) && OwnParts(env, g, p) && p != []
    requires DistinctIn(acc.buckets) && NewBounds(env, g, p, acc.buckets)
    ensures Readable(env, g, p[0])
    ensures var t := Take(env, g, acc, p[0]); DistinctIn(t.buckets) && NewBounds(env, g, p[1..], t.buckets)
  {
    TakeBuckets(env, g, acc, p[0]);
    var t, c := Take(env, g, acc, p[0]), Classify(env, g, p[0].ref);
    if c.Member? && c.kind.BucketOf? {
      var v :| t.buckets == acc.buckets + multiset{Bucket(c.kind.bound, v)};
      assert NoBound(acc.buckets, c.kind.bound);
      AddDistinct(acc.buckets, Bucket(c.kind.bound, v));
      TailBounds(env, g, p, acc.buckets, Bucket(c.kind.bound, v));
    } else {
      assert forall i :: 0 <= i < |p[1..]| ==> p[1..][i] == p[i + 1];
    }
  }

  lemma {:induction false} TakeAllDistinct(env: Env, g: Group, acc: Acc, p: seq<RefSample>)
    requires Numeric(env, g, p) && OwnParts(env, g, p)
    requires DistinctIn(acc.buckets) && NewBounds(env, g, p, acc.buckets)
    ensures DistinctIn(TakeAll(env, g, acc, p).buckets)
    decreases p
  {
    if p != [] {
      TakeKeepsDistinct(env, g, acc, p);
      TakeAllDistinct(env, g, Take(env, g, acc, p[0]), p[1..]);
    }
  }

  /** The rest of the record is not part of the histogram at this time. */
  predicate Stops(env: Env, g: Group, t: int, rest: seq<RefSample>) {
    rest == [] || !Plain(env, g, t, rest[0])
  }

  /** The bounds read are distinct. */
  lemma {:induction false} GatherDistinct(env: Env, g: Group, t: int, p: seq<RefSample>, rest: seq<RefSample>,
                                          resets: map<nat, ResetState>)
    requires Numeric(env, g, p) && Numeric(env, g, rest) && p != [] && IsMember(env, g, p[0])
    requires OwnParts(env, g, p) && (forall s <- p :: Plain(env, g, t, s)) && Stops(env, g, t, rest)
    ensures DistinctIn(Gather(env, g, p + rest, true, 0, Start(resets)).acc.buckets)
  {
    GatherPlain(env, g, t, p, rest, true, 0, Start(resets));
    TakeAllDistinct(env, g, Start(resets), p);
  }

  /** Groups that agree on the base name and on everything but the ignored labels are read alike. */
  lemma {:induction false} GatherSameGroup(env: Env, g: Group, h: Group, samples: seq<RefSample>, first: bool,
                                           last: int, acc: Acc)
    requires g.base == h.base && Identity(g.lset) == Identity(h.lset)
    requires Numeric(env, g, samples) && Numeric(env, h, samples)
    ensures Gather(env, g, samples, first, last, acc) == Gather(env, h, samples, first, last, acc)
    decreases samples
  {
    if samples != [] {
      match Classify(env, g, samples[0].ref) {
        case Unlisted => GatherSameGroup(env, g, h, samples[1..], false, last, acc);
        case Member(kind) =>
          GatherSameGroup(env, g, h, samples[1..], false, samples[0].t, Absorb(acc, kind, samples[0]));
        case _ =>
      }
    }
  }

  /** next will call buildDistribution for the sample. */
  predicate HistogramHead(env: Env, s: RefSample) {
    s.v.Num? && Get(env, s.ref).Entry? && env.infos[s.ref].exported && env.infos[s.ref].metricType.Histogram?
  }

  /** What a call of next does to a histogram at the head of its input. */
  lemma DraftOfHistogram(env: Env, samples: seq<RefSample>, resets: map<nat, ResetState>, d: Draft, after: map<nat,
                         ResetState>)
    requires samples != [] && HistogramHead(env, samples[0]) && Legible(env, samples)
    requires Drafts(env, samples, resets, d, after)
    ensures var g := GroupOf(env.infos[samples[0].ref]);
      && Numeric(env, g, samples)
      && var r := Gather(env, g, samples, true, 0, Start(resets));
      && after == r.acc.resets
      && NextExtent(env, samples) == (if r.failed then (0, true) else (r.consumed, false))
      && (if !r.failed && Complete(r.acc)
          then d.Draft? && d.start == r.acc.reset && d.value.Dist? && IsDistribution(d.value.d, r.acc)
          else d == Nothing)
  {
    GatherExtent(env, GroupOf(env.infos[samples[0].ref]), samples, true, 0, Start(resets));
  }

  /** The order of a histogram's series in the record does not matter, whichever of them comes first and so names the
      group: for series at one time, with distinct bounds and one sum and one count, any two orders make next draft the
      same point (or none), leave the same reset state and consume as much. */
  lemma {:induction false} NextIgnoresOrder(env: Env, t: int, p: seq<RefSample>, q: seq<RefSample>,
                                            rest: seq<RefSample>, resets: map<nat, ResetState>,
                                            d: Draft, e: Draft, afterD: map<nat, ResetState>,
                                            afterE: map<nat, ResetState>)
    requires p != [] && q != [] && multiset(p) == multiset(q)
    requires HistogramHead(env, p[0]) && HistogramHead(env, q[0])
    requires env.infos[p[0].ref].metric == env.infos[q[0].ref].metric
    requires var g := GroupOf(env.infos[p[0].ref]);
      OwnParts(env, g, p) && (forall s <- p :: Plain(env, g, t, s)) && Stops(env, g, t, rest)
    requires Legible(env, p + rest) && Legible(env, q + rest)
    requires Drafts(env, p + rest, resets, d, afterD) && Drafts(env, q + rest, resets, e, afterE)
    ensures d == e && afterD == afterE && NextExtent(env, p + rest) == NextExtent(env, q + rest)
  {
    var g, h := GroupOf(env.infos[p[0].ref]), GroupOf(env.infos[q[0].ref]);
    DraftOfHistogram(env, p + rest, resets, d, afterD);
    DraftOfHistogram(env, q + rest, resets, e, afterE);
    assert q[0] in multiset(p) && p[0] in p && Plain(env, g, t, q[0]);
    SplitNumeric(env, g, p, rest);
    SplitNumeric(env, h, q, rest);
    SameNumeric(env, h, g, q + rest);
    SplitNumeric(env, g, q, rest);
    GatherSameGroup(env, h, g, q + rest, true, 0, Start(resets));
    OwnPartsApart(env, g, p);
    GatherIgnoresOrder(env, g, t, p, q, rest, resets);
    GatherDistinct(env, g, t, p, rest, resets);
    if d.Draft? {
      DistributionUnique(d.value.d, e.value.d, Gather(env, g, p + rest, true, 0, Start(resets)).acc);
    }
  }

  lemma SplitNumeric(env: Env, g: Group, p: seq<RefSample>, rest: seq<RefSample>)
    requires Numeric(env, g, p + rest)
    ensures Numeric(env, g, p) && Numeric(env, g, rest)
  {
    assert forall i :: 0 <= i < |p| ==> p[i] == (p + rest)[i];
    assert forall i :: 0 <= i < |rest| ==> rest[i] == (p + rest)[|p| + i];
  }

  lemma SameNumeric(env: Env, g: Group, h: Group, samples: seq<RefSample>)
    requires g.base == h.base && Identity(g.lset) == Identity(h.lset) && Numeric(env, g, samples)
    ensures Numeric(env, h, samples)
  {
    assert forall i :: 0 <= i < |samples| ==> Readable(env, g, samples[i]);
  }

  /** The two series belong to one histogram of the given base name: the name goes on with one of the three suffixes,
      and the labels are the same but for `le` and `__name__`. */
  predicate SameHistogram(base: string, head: seq<Label>, lset: seq<Label>) {
    && LabelValue(lset, "__name__") in {base + "_sum", base + "_count", base + "_bucket"}
    && Identity(lset) == Identity(head)
  }

  /** The sample is of a series nobody knows, or of the histogram and from the time of its head. */
  predicate OfHead(env: Env, head: RefSample, s: RefSample)
    requires head.ref in env.infos
  {
    || Get(env, s.ref).Missing?
    || (s.t == head.t && Get(env, s.ref).Entry?
        && SameHistogram(env.infos[head.ref].metric, env.infos[head.ref].lset, env.infos[s.ref].lset))
  }

  /** A call on a histogram uses up the samples of that one histogram at that one time, all of them that come in a row,
      and fails, using up nothing, exactly if what ends the row is a lookup that fails. */
  lemma {:induction false} CallReadsOneHistogram(env: Env, samples: seq<RefSample>)
    requires samples != [] && HistogramHead(env, samples[0])
    ensures var (n, failed) := NextExtent(env, samples);
      && (!failed ==>
            && (forall i :: 0 <= i < n ==> OfHead(env, samples[0], samples[i]))
            && (n < |samples| ==> !OfHead(env, samples[0], samples[n]) && Get(env, samples[n].ref) != Failure))
      && (failed ==> n == 0 && exists k :: 0 <= k < |samples| && Get(env, samples[k].ref) == Failure
                                         && forall i :: 0 <= i < k ==> OfHead(env, samples[0], samples[i]))
  {
    var head, g := samples[0], GroupOf(env.infos[samples[0].ref]);
    forall i | 0 <= i < |samples| ensures Plain(env, g, head.t, samples[i]) <==> OfHead(env, head, samples[i]) {
      PlainIsOfHead(env, head, samples[i]);
    }
    if IsMember(env, g, head) {
      assert Extent(env, g, samples, true, 0) == Extent(env, g, samples, true, head.t);
      ExtentIsMaximal(env, g, samples, true, head.t);
    }
  }

  lemma PlainIsOfHead(env: Env, head: RefSample, s: RefSample)
    requires HistogramHead(env, head)
    ensures Plain(env, GroupOf(env.infos[head.ref]), head.t, s) <==> OfHead(env, head, s)
  {
    if Get(env, s.ref).Entry? {
      var base, lset := env.infos[head.ref].metric, env.infos[s.ref].lset;
      if base <= LabelValue(lset, NAME) {
        Suffixes(env, base, lset);
      }
    }
  }

  /** The series is in the cache and exported, and the sample is a number. */
  predicate Exported(env: Env, s: RefSample) {
    s.v.Num? && Get(env, s.ref).Entry? && env.infos[s.ref].exported
  }

  predicate HasPoints(info: Info) {
    && !info.metricType.Other?
    && (info.metricType.Summary? ==> info.suffix in {"_sum", "_count", ""})
  }

  /** A number of a series that is not in the cache or not populated feeds no tracker; it is passed over, unless the
      refresh of a series in the cache fails: then the call fails and uses up nothing. A populated series feeds its
      tracker if it has one, exported or not. */
  lemma LookupDecides(env: Env, samples: seq<RefSample>)
    requires samples != [] && samples[0].v.Num?
    ensures var ref := samples[0].ref;
      if ref in env.infos && env.infos[ref].populated
      then
        && Tracked(env, samples) == (if env.infos[ref].tracked then Some(samples[0]) else None)
        && (!env.infos[ref].exported ==> NextExtent(env, samples) == (1, false))
      else
        && Tracked(env, samples) == None
        && NextExtent(env, samples) == if ref in env.infos && ref in env.fails then (0, true) else (1, false)
  {
  }

  /** Unless the first sample belongs to a histogram a call uses up just that sample, or nothing if the lookup fails;
      and it fails exactly if the lookup does or the exported series is of no type that has points. */
  lemma OneSampleUnlessHistogram(env: Env, samples: seq<RefSample>)
    requires samples != [] && !HistogramHead(env, samples[0])
    ensures var (n, failed) := NextExtent(env, samples);
      && n == (if samples[0].v.Num? && Get(env, samples[0].ref).Failure? then 0 else 1)
      && (failed <==>
            || (samples[0].v.Num? && Get(env, samples[0].ref).Failure?)
            || (Exported(env, samples[0]) && !HasPoints(env.infos[samples[0].ref])))
  {
  }

  /** A NaN and a sample of a series that is unknown, not exported or of no type that has points make no point and leave
      the reset state alone. */
  lemma NoPointOtherwise(env: Env, samples: seq<RefSample>, resets: map<nat, ResetState>, draft: Draft,
                         after: map<nat, ResetState>)
    requires samples != [] && Legible(env, samples) && Drafts(env, samples, resets, draft, after)
    requires !Exported(env, samples[0]) || !HasPoints(env.infos[samples[0].ref])
    ensures draft == Nothing && after == resets
  {
  }

  // ---- Progress ----

  /** The sample belongs to an exported series with histogram metadata whose own name is not the metadata's name
      followed by one of the three suffixes. */
  predicate Stuck(env: Env, s: RefSample) {
    s.v.Num? && match Get(env, s.ref)
      case Entry(info) => info.exported && info.metricType.Histogram? && MisnamedHistogram(env, info)
      case _ => false
  }

  predicate MisnamedHistogram(env: Env, info: Info) {
    var name := LabelValue(info.lset, NAME);
    !(info.metric <= name && name[|info.metric|..] in {"_sum", "_count", "_bucket"})
  }

  /** An error-free call of next makes progress exactly when the first sample is not stuck. A stuck sample is
      returned as it came, without an error, so the loop that calls next never gets past it. */
  lemma NextProgressesUnlessStuck(env: Env, samples: seq<RefSample>)
    requires samples != []
    ensures var (n, failed) := NextExtent(env, samples);
      && (!failed ==> (n > 0 <==> !Stuck(env, samples[0])))
      && (Stuck(env, samples[0]) ==> n == 0 && !failed)
      && (failed ==> n <= 1)
  {
  }

  /** A failed call that keeps its input is down to a lookup that fails. */
  lemma FailureKeepsInput(env: Env, samples: seq<RefSample>)
    requires samples != [] && NextExtent(env, samples) == (0, true)
    ensures exists i :: 0 <= i < |samples| && Get(env, samples[i].ref) == Failure
  {
    if samples[0].v.Num? && Get(env, samples[0].ref).Entry? {
      var info := Get(env, samples[0].ref).info;
      ExtentFailure(env, GroupOf(info), samples, true, 0);
    } else {
      assert Get(env, samples[0].ref) == Failure;
    }
  }

  lemma {:induction false} ExtentFailure(env: Env, g: Group, samples: seq<RefSample>, first: bool, last: int)
    requires Extent(env, g, samples, first, last).1
    ensures exists i :: 0 <= i < |samples| && Get(env, samples[i].ref) == Failure
    decreases samples
  {
    var c := Classify(env, g, samples[0].ref);
    if c.Broken? {
      assert Get(env, samples[0].ref) == Failure;
    } else {
      ExtentFailure(env, g, samples[1..], false, if c.Member? then samples[0].t else last);
      var i :| 0 <= i < |samples[1..]| && Get(env, samples[1..][i].ref) == Failure;
      assert samples[i + 1] == samples[1..][i];
    }
  }

  /** A stuck sample: a counter foo_total, with histogram metadata filed under foo. However often next is called on
      it, it comes back without an error. */
  lemma StuckSample(env: Env, ref: nat, t: int, v: real, rest: seq<RefSample>)
    requires ref in env.infos
    requires env.infos[ref] == Info([Label(NAME, "foo_total")], true, false, true, Histogram, Double, "foo", "", 0)
    ensures Stuck(env, RefSample(ref, t, Num(v)))
    ensures NextExtent(env, [RefSample(ref, t, Num(v))] + rest) == (0, false)
  {
    var s := RefSample(ref, t, Num(v));
    assert "foo_total"[3..] == "_total" && "_total" != "_count" by {
      assert "_total"[1] != "_count"[1];
    }
    assert "foo" <= "foo_total";
    assert ([s] + rest)[0] == s;
    NextProgressesUnlessStuck(env, [s] + rest);
  }
}
