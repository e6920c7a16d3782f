/**
 * The reducer service: the `/reduce` handler reads the count maps named by
 * the repeated `in` parameter, all from one bucket, adds them key by key
 * and writes the sum as one final object.
 */
module Reducer {
  import opened Wrappers
  import opened Locator
  import opened Store
  import opened Http
  import opened Sorting
  import opened Tally

  const NoInputs: string := "provide at least one ?in=s3://bucket/key (repeat ?in=...)"
  const BucketMismatch: string := "all inputs must be in same bucket for this simple reducer"

  // ---------------------------------------------------------------------------
  // Adding count maps: final[k] += v
  // ---------------------------------------------------------------------------

  /** Two count maps added key by key, a missing key counting as 0. */
  function AddCounts(a: Counts, b: Counts): (r: Counts)
    ensures forall k :: k in r <==> k in a || k in b
  {
    map k | k in a.Keys + b.Keys :: Get(a, k) + Get(b, k)
  }

  /** Adding is commutative. */
  lemma AddCountsCommutative(a: Counts, b: Counts)
    ensures AddCounts(a, b) == AddCounts(b, a)
  {
  }

  /** Adding is associative. */
  lemma AddCountsAssociative(a: Counts, b: Counts, c: Counts)
    ensures AddCounts(AddCounts(a, b), c) == AddCounts(a, AddCounts(b, c))
  {
    var l := AddCounts(AddCounts(a, b), c);
    var r := AddCounts(a, AddCounts(b, c));
    forall k | k in l
      ensures l[k] == r[k]
    {
      assert l[k] == Get(a, k) + Get(b, k) + Get(c, k);
    }
  }

  /** The empty map, the `final` the handler starts from, is the identity. */
  lemma AddCountsIdentity(a: Counts)
    ensures AddCounts(a, map[]) == a && AddCounts(map[], a) == a
  {
  }

  /** The part of `m` at the keys in `done`. */
  function Restrict(m: Counts, done: set<string>): (r: Counts)
    ensures forall k :: k in r <==> k in m && k in done
  {
    map k | k in m.Keys * done :: m[k]
  }

  /** Adding one more key of `part` is one `final[k] += v` step. */
  lemma AddRestrictStep(final: Counts, part: Counts, done: set<string>, k: string)
    requires k in part && k !in done
    ensures var before := AddCounts(final, Restrict(part, done));
      AddCounts(final, Restrict(part, done + {k})) == before[k := Get(before, k) + part[k]]
  {
  }

  /**
   * `for k, v := range part { final[k] += v }`: the keys are visited in an
   * unspecified order, as Go's map iteration does.
   */
  method MergeInto(final: Counts, part: Counts) returns (r: Counts)
    ensures r == AddCounts(final, part)
  {
    r := final;
    var rest := part.Keys;
    ghost var done: set<string> := {};
    while rest != {}
      invariant rest == part.Keys - done && done <= part.Keys
      invariant r == AddCounts(final, Restrict(part, done))
      decreases rest
    {
      var k :| k in rest;
      AddRestrictStep(final, part, done, k);
      r := r[k := Get(r, k) + part[k]];
      rest := rest - {k};
      done := done + {k};
    }
    assert Restrict(part, done) == part;
  }

  /** The maps of the inputs added in order, starting from the empty `final`. */
  function MergeAll(ps: seq<Counts>): Counts
  {
    if ps == [] then map[]
    else AddCounts(MergeAll(ps[..|ps| - 1]), ps[|ps| - 1])
  }

  /** An independent reading of the sum: the value of `k` in every map, added up. */
  function SumOf(ps: seq<Counts>, k: string): int
  {
    if ps == [] then 0
    else SumOf(ps[..|ps| - 1], k) + Get(ps[|ps| - 1], k)
  }

  /** Some input map has the key `k`. */
  predicate InSome(ps: seq<Counts>, k: string)
  {
    exists p :: p in ps && k in p
  }

  /** `final` has the keys found in some input, and each holds the sum over all inputs. */
  lemma {:induction false} MergeAllMeaning(ps: seq<Counts>, k: string)
    ensures k in MergeAll(ps) <==> InSome(ps, k)
    ensures Get(MergeAll(ps), k) == SumOf(ps, k)
  {
    if ps != [] {
      var init := ps[..|ps| - 1];
      var last := ps[|ps| - 1];
      MergeAllMeaning(init, k);
      assert ps == init + [last];
      if InSome(ps, k) {
        var p :| p in ps && k in p;
        if p != last {
          assert p in init;
        }
      }
      if InSome(init, k) {
        var p :| p in init && k in p;
        assert p in ps;
      }
    }
  }

  /** Two input lists with the same sums and the same keys merge to the same map. */
  lemma MergeAllAgree(ps: seq<Counts>, qs: seq<Counts>)
    requires forall k :: SumOf(ps, k) == SumOf(qs, k)
    requires forall k :: InSome(ps, k) <==> InSome(qs, k)
    ensures MergeAll(ps) == MergeAll(qs)
  {
    forall k
      ensures (k in MergeAll(ps) <==> k in MergeAll(qs))
      ensures k in MergeAll(ps) ==> MergeAll(ps)[k] == MergeAll(qs)[k]
    {
      MergeAllMeaning(ps, k);
      MergeAllMeaning(qs, k);
    }
  }

  lemma {:induction false} SumOfAppend(ps: seq<Counts>, qs: seq<Counts>, k: string)
    ensures SumOf(ps + qs, k) == SumOf(ps, k) + SumOf(qs, k)
    decreases |qs|
  {
    if qs != [] {
      var init := qs[..|qs| - 1];
      assert (ps + qs)[..|ps + qs| - 1] == ps + init;
      SumOfAppend(ps, init, k);
    } else {
      assert ps + qs == ps;
    }
  }

  lemma InSomeAppend(ps: seq<Counts>, qs: seq<Counts>, k: string)
    ensures InSome(ps + qs, k) <==> InSome(ps, k) || InSome(qs, k)
  {
    if InSome(ps + qs, k) {
      var p :| p in ps + qs && k in p;
      assert p in ps || p in qs;
    }
    if InSome(ps, k) {
      var p :| p in ps && k in p;
      assert p in ps + qs;
    }
    if InSome(qs, k) {
      var p :| p in qs && k in p;
      assert p in ps + qs;
    }
  }

  /** Merging two lists one after the other is adding their merges. */
  lemma MergeAllAppend(ps: seq<Counts>, qs: seq<Counts>)
    ensures MergeAll(ps + qs) == AddCounts(MergeAll(ps), MergeAll(qs))
  {
    var l := MergeAll(ps + qs);
    var r := AddCounts(MergeAll(ps), MergeAll(qs));
    forall k
      ensures (k in l <==> k in r) && (k in l ==> l[k] == r[k])
    {
      MergeAllMeaning(ps + qs, k);
      MergeAllMeaning(ps, k);
      MergeAllMeaning(qs, k);
      SumOfAppend(ps, qs, k);
      InSomeAppend(ps, qs, k);
    }
  }

  /** Merging `[A, B]` and then merging the result with `C` is merging `[A, B, C]`. */
  lemma MergeNested(ps: seq<Counts>, qs: seq<Counts>)
    ensures MergeAll([MergeAll(ps)] + qs) == MergeAll(ps + qs)
  {
    MergeAllAppend([MergeAll(ps)], qs);
    MergeAllAppend(ps, qs);
    MergeOne(MergeAll(ps));
  }

  /** Merging a single map gives that map. */
  lemma MergeOne(p: Counts)
    ensures MergeAll([p]) == p
  {
    assert [p][..0] == [];
    assert AddCounts(map[], p) == p;
  }

  /** The sum of one key does not depend on the order of the inputs. */
  lemma {:induction false} SumOfPermutation(ps: seq<Counts>, qs: seq<Counts>, k: string)
    requires multiset(ps) == multiset(qs)
    ensures SumOf(ps, k) == SumOf(qs, k)
    decreases |ps|
  {
    if ps == [] {
      assert |qs| == |multiset(qs)| == 0;
    } else {
      var init := ps[..|ps| - 1];
      var x := ps[|ps| - 1];
      assert ps == init + [x];
      assert x in multiset(qs);
      var j :| 0 <= j < |qs| && qs[j] == x;
      var rest := qs[..j] + qs[j + 1..];
      RemoveAt(qs, j);
      assert multiset(init) == multiset(ps) - multiset{x};
      SumOfPermutation(init, rest, k);
      SumOfRemoveAt(qs, j, k);
    }
  }

  /** Taking out the element at `j` takes one occurrence of it out of the multiset. */
  lemma RemoveAt(qs: seq<Counts>, j: nat)
    requires j < |qs|
    ensures multiset(qs[..j] + qs[j + 1..]) == multiset(qs) - multiset{qs[j]}
  {
    assert qs == qs[..j] + [qs[j]] + qs[j + 1..];
  }

  /** Taking out the element at `j` takes its value of `k` out of the sum. */
  lemma SumOfRemoveAt(qs: seq<Counts>, j: nat, k: string)
    requires j < |qs|
    ensures SumOf(qs, k) == SumOf(qs[..j] + qs[j + 1..], k) + Get(qs[j], k)
  {
    var x := qs[j];
    assert qs == qs[..j] + [x] + qs[j + 1..];
    SumOfAppend(qs[..j] + [x], qs[j + 1..], k);
    SumOfAppend(qs[..j], [x], k);
    SumOfAppend(qs[..j], qs[j + 1..], k);
    assert SumOf([x], k) == Get(x, k) by {
      assert [x][..0] == [];
    }
  }

  /** Permuting the inputs gives the same `final`. */
  lemma MergeAllPermutation(ps: seq<Counts>, qs: seq<Counts>)
    requires multiset(ps) == multiset(qs)
    ensures MergeAll(ps) == MergeAll(qs)
  {
    forall k
      ensures SumOf(ps, k) == SumOf(qs, k)
    {
      SumOfPermutation(ps, qs, k);
    }
    forall k
      ensures InSome(ps, k) <==> InSome(qs, k)
    {
      if InSome(ps, k) {
        var p :| p in ps && k in p;
        assert p in multiset(qs);
      }
      if InSome(qs, k) {
        var p :| p in qs && k in p;
        assert p in multiset(ps);
      }
    }
    MergeAllAgree(ps, qs);
  }

  /** The same input given twice is counted twice. */
  lemma MergeTwice(p: Counts, k: string)
    ensures Get(MergeAll([p, p]), k) == 2 * Get(p, k)
  {
    MergeAllMeaning([p, p], k);
    assert [p, p][..1] == [p];
    assert [p][..0] == [];
    assert SumOf([p], k) == Get(p, k);
    assert SumOf([p, p], k) == SumOf([p], k) + Get(p, k);
  }

  // ---------------------------------------------------------------------------
  // orderKeys
  // ---------------------------------------------------------------------------

  /**
   * `orderKeys(m)`: the keys collected in map order, sorted with
   * `sort.Strings`, and the map rebuilt in that order. Go maps have no order,
   * so the result equals `m`; the sorted slice is returned beside it.
   */
  method OrderKeys(m: Counts) returns (ordered: Counts, keys: seq<string>)
    ensures ordered == m
    ensures StrictlySorted(keys)
    ensures forall k :: k in keys <==> k in m
  {
    var collected := CollectKeys(m);
    SortDistinct(collected);
    keys := SortStrings(collected);
    assert forall k :: k in keys <==> k in multiset(collected);
    ordered := Refill(m, keys);
  }

  /** `for k := range m { keys = append(keys, k) }`, in an unspecified order. */
  method CollectKeys(m: Counts) returns (keys: seq<string>)
    ensures forall k :: k in keys <==> k in m
    ensures forall a, b :: 0 <= a < b < |keys| ==> keys[a] != keys[b]
  {
    keys := [];
    var rest := m.Keys;
    while rest != {}
      invariant rest <= m.Keys
      invariant forall k :: k in keys <==> k in m && k !in rest
      invariant forall a, b :: 0 <= a < b < |keys| ==> keys[a] != keys[b]
      decreases rest
    {
      var k :| k in rest;
      keys := keys + [k];
      rest := rest - {k};
    }
  }

  /** `for _, k := range keys { ordered[k] = m[k] }`. */
  method Refill(m: Counts, keys: seq<string>) returns (ordered: Counts)
    requires forall k :: k in keys <==> k in m
    ensures ordered == m
  {
    ordered := map[];
    for i := 0 to |keys|
      invariant forall k :: k in ordered <==> k in keys[..i]
      invariant forall k :: k in ordered ==> k in m && ordered[k] == m[k]
    {
      assert keys[..i + 1] == keys[..i] + [keys[i]];
      assert keys[i] in keys;
      ordered := ordered[keys[i] := m[keys[i]]];
    }
    assert keys[..|keys|] == keys;
  }

  // ---------------------------------------------------------------------------
  // Reading the inputs
  // ---------------------------------------------------------------------------

  /**
   * What one turn of the input loop reads from: the store's objects and
   * failing addresses, the first input's bucket, and `decode`, which stands
   * for `json.Unmarshal` into a `map[string]int` and gives the map or the
   * text of its error.
   */
  datatype Source = Source(objects: map<Ref, string>, faulty: set<Ref>, first: string,
                           decode: string -> Result<Counts, string>)

  /**
   * One turn of the input loop: parse the locator, check its bucket, get the
   * object and decode it. An input that does not parse, or lies in another
   * bucket, is a bad request; a content that does not decode is a bad request
   * naming the input; only a failed get is an internal error; success means
   * the object was there and decoded to the map returned.
   */
  function ReadInput(src: Source, input: string): (r: Result<Counts, HttpError>)
    ensures Parse(input).Err? ==> r == Err(HttpError(BadRequest, Parse(input).error.Message()))
    ensures Parse(input).Ok? && Parse(input).value.bucket != src.first ==> r == Err(HttpError(BadRequest, BucketMismatch))
    ensures r.Ok? <==>
      (Parse(input).Ok? && Parse(input).value.bucket == src.first
       && Fetch(src.objects, src.faulty, Parse(input).value).Ok?
       && src.decode(Fetch(src.objects, src.faulty, Parse(input).value).value).Ok?)
    ensures r.Ok? ==> r.value == src.decode(Fetch(src.objects, src.faulty, Parse(input).value).value).value
    ensures r.Err? && r.error.status == InternalError <==>
      (Parse(input).Ok? && Parse(input).value.bucket == src.first
       && Fetch(src.objects, src.faulty, Parse(input).value).Err?)
    ensures (Parse(input).Ok? && Parse(input).value.bucket == src.first
             && Fetch(src.objects, src.faulty, Parse(input).value).Ok?
             && src.decode(Fetch(src.objects, src.faulty, Parse(input).value).value).Err?) ==>
      r == Err(HttpError(BadRequest, "bad json in " + input + ": "
                         + src.decode(Fetch(src.objects, src.faulty, Parse(input).value).value).error))
  {
    match Parse(input)
    case Err(e) => Err(HttpError(BadRequest, e.Message()))
    case Ok(at) =>
      if at.bucket != src.first then Err(HttpError(BadRequest, BucketMismatch))
      else
        match Fetch(src.objects, src.faulty, at)
        case Err(ge) => Err(GetFailure(ge))
        case Ok(body) =>
          match src.decode(body)
          case Err(reason) => Err(HttpError(BadRequest, "bad json in " + input + ": " + reason))
          case Ok(part) => Ok(part)
  }

  /** A run of steps that may fail: all the values in order, or the first error. */
  function Collect<T, E>(rs: seq<Result<T, E>>): Result<seq<T>, E>
  {
    if rs == [] then Ok([])
    else
      match Collect(rs[..|rs| - 1])
      case Err(e) => Err(e)
      case Ok(vs) =>
        match rs[|rs| - 1]
        case Err(e) => Err(e)
        case Ok(v) => Ok(vs + [v])
  }

  /** Step `i` is the first that fails. */
  predicate FailsFirstAt<T, E>(rs: seq<Result<T, E>>, i: nat)
    requires i < |rs|
  {
    rs[i].Err? && forall j :: 0 <= j < i ==> rs[j].Ok?
  }

  lemma CollectSnoc<T, E>(rs: seq<Result<T, E>>, r: Result<T, E>)
    ensures Collect(rs + [r]) ==
      if Collect(rs).Err? then Collect(rs)
      else if r.Err? then Err(r.error)
      else Ok(Collect(rs).value + [r.value])
  {
    assert (rs + [r])[..|rs|] == rs;
  }

  /** A successful run holds every step's value, in order. */
  lemma {:induction false} CollectOk<T, E>(rs: seq<Result<T, E>>)
    requires Collect(rs).Ok?
    ensures |Collect(rs).value| == |rs|
    ensures forall i :: 0 <= i < |rs| ==> rs[i].Ok? && Collect(rs).value[i] == rs[i].value
  {
    if rs != [] {
      var init := rs[..|rs| - 1];
      CollectOk(init);
      var vs := Collect(init).value;
      assert Collect(rs).value == vs + [rs[|rs| - 1].value];
    }
  }

  /** When no step fails, the run succeeds. */
  lemma {:induction false} CollectSucceeds<T, E>(rs: seq<Result<T, E>>)
    requires forall i :: 0 <= i < |rs| ==> rs[i].Ok?
    ensures Collect(rs).Ok?
  {
    if rs != [] {
      var init := rs[..|rs| - 1];
      assert forall i :: 0 <= i < |init| ==> init[i] == rs[i];
      CollectSucceeds(init);
    }
  }

  /** A failed run failed with the error of its first failing step. */
  lemma {:induction false} CollectFails<T, E>(rs: seq<Result<T, E>>)
    requires Collect(rs).Err?
    ensures exists i :: 0 <= i < |rs| && FailsFirstAt(rs, i) && Collect(rs).error == rs[i].error
  {
    var init := rs[..|rs| - 1];
    assert forall j :: 0 <= j < |init| ==> init[j] == rs[j];
    if Collect(init).Err? {
      CollectFails(init);
      var i :| 0 <= i < |init| && FailsFirstAt(init, i) && Collect(init).error == init[i].error;
      assert FailsFirstAt(rs, i);
    } else {
      CollectOk(init);
      assert FailsFirstAt(rs, |rs| - 1);
    }
  }

  /** Once a prefix of the run has failed, the run has failed with that error. */
  lemma {:induction false} CollectStops<T, E>(rs: seq<Result<T, E>>, i: nat)
    requires i <= |rs| && Collect(rs[..i]).Err?
    ensures Collect(rs) == Collect(rs[..i])
    decreases |rs|
  {
    if i == |rs| {
      assert rs[..i] == rs;
    } else {
      var init := rs[..|rs| - 1];
      assert init[..i] == rs[..i];
      CollectStops(init, i);
    }
  }

  /** What every turn of the input loop reads, one result per input. */
  function Reads(src: Source, ins: seq<string>): (r: seq<Result<Counts, HttpError>>)
    ensures |r| == |ins| && forall i :: 0 <= i < |ins| ==> r[i] == ReadInput(src, ins[i])
  {
    seq(|ins|, i requires 0 <= i < |ins| => ReadInput(src, ins[i]))
  }

  /** Reading one more input adds its result at the end. */
  lemma ReadsSnoc(src: Source, ins: seq<string>, i: nat)
    requires i < |ins|
    ensures Reads(src, ins[..i + 1]) == Reads(src, ins[..i]) + [ReadInput(src, ins[i])]
  {
    var l := Reads(src, ins[..i + 1]);
    var r := Reads(src, ins[..i]) + [ReadInput(src, ins[i])];
    forall j | 0 <= j < |l|
      ensures l[j] == r[j]
    {
      assert ins[..i + 1][j] == ins[j];
    }
  }

  /** The results of a prefix of the inputs are a prefix of the results. */
  lemma ReadsTake(src: Source, ins: seq<string>, i: nat)
    requires i <= |ins|
    ensures Reads(src, ins)[..i] == Reads(src, ins[..i])
  {
    var t := Reads(src, ins)[..i];
    var l := Reads(src, ins[..i]);
    forall j | 0 <= j < |t|
      ensures t[j] == l[j]
    {
      assert ins[..i][j] == ins[j];
    }
  }

  /** The input loop: the decoded maps in order, or the error of the first input that fails. */
  function ReadAll(src: Source, ins: seq<string>): Result<seq<Counts>, HttpError>
  {
    Collect(Reads(src, ins))
  }

  /**
   * The loop succeeds exactly when every input reads, and then holds their
   * maps in order; otherwise its error is that of the first input that fails.
   */
  lemma ReadAllMeaning(src: Source, ins: seq<string>)
    ensures ReadAll(src, ins).Ok? <==> forall i :: 0 <= i < |ins| ==> ReadInput(src, ins[i]).Ok?
    ensures ReadAll(src, ins).Ok? ==>
      |ReadAll(src, ins).value| == |ins|
      && forall i :: 0 <= i < |ins| ==> ReadAll(src, ins).value[i] == ReadInput(src, ins[i]).value
    ensures ReadAll(src, ins).Err? ==>
      exists i ::
        0 <= i < |ins| && FailsFirstAt(Reads(src, ins), i) && ReadAll(src, ins).error == ReadInput(src, ins[i]).error
  {
    var rs := Reads(src, ins);
    if Collect(rs).Ok? {
      CollectOk(rs);
    } else {
      CollectFails(rs);
      if forall i :: 0 <= i < |ins| ==> ReadInput(src, ins[i]).Ok? {
        CollectSucceeds(rs);
      }
    }
  }

  /** One turn of the input loop over the store; it changes nothing. */
  method ReadPart(store: ObjectStore, input: string, first: string, decode: string -> Result<Counts, string>)
    returns (r: Result<Counts, HttpError>)
    ensures r == ReadInput(Source(store.objects, store.faulty, first, decode), input)
  {
    var parsed := Parse(input);
    if parsed.Err? {
      return Err(HttpError(BadRequest, parsed.error.Message()));
    }
    var src := parsed.value;
    if src.bucket != first {
      return Err(HttpError(BadRequest, BucketMismatch));
    }
    var got := store.Get(src);
    if got.Err? {
      return Err(GetFailure(got.error));
    }
    var part := decode(got.value);
    if part.Err? {
      return Err(HttpError(BadRequest, "bad json in " + input + ": " + part.error));
    }
    r := Ok(part.value);
  }

  // ---------------------------------------------------------------------------
  // The handler
  // ---------------------------------------------------------------------------

  /**
   * The handler's loop over the inputs: each is read and added into `final`,
   * and the first input that fails ends the request. The store is only read.
   */
  method ReadAndMerge(store: ObjectStore, ins: seq<string>, first: string, decode: string -> Result<Counts, string>)
    returns (r: Result<Counts, HttpError>)
    ensures match ReadAll(Source(store.objects, store.faulty, first, decode), ins)
      case Err(e) => r == Err(e)
      case Ok(parts) => r == Ok(MergeAll(parts))
  {
    var final: Counts := map[];
    ghost var parts: seq<Counts> := [];
    ghost var src := Source(store.objects, store.faulty, first, decode);
    for i := 0 to |ins|
      invariant Collect(Reads(src, ins[..i])) == Ok(parts)
      invariant final == MergeAll(parts)
    {
      var part := ReadPart(store, ins[i], first, decode);
      ReadsSnoc(src, ins, i);
      ReadsTake(src, ins, i + 1);
      CollectSnoc(Reads(src, ins[..i]), part);
      if part.Err? {
        CollectStops(Reads(src, ins), i + 1);
        return Err(part.error);
      }
      final := MergeInto(final, part.value);
      assert (parts + [part.value])[..|parts|] == parts;
      parts := parts + [part.value];
    }
    assert ins[..|ins|] == ins;
    r := Ok(final);
  }

  /** `ReduceResponse`: where the final object went and how many inputs were given. */
  datatype ReduceResponse = ReduceResponse(out: string, files: nat)

  /** `outPrefix/final_ts.json`. */
  function FinalKey(outPrefix: string, ts: string): string
  {
    outPrefix + "/final_" + ts + ".json"
  }

  /** The final key lies under the output prefix, is named after the timestamp and ends in `.json`. */
  lemma FinalKeyShape(outPrefix: string, ts: string)
    ensures var k := FinalKey(outPrefix, ts);
      |k| == |outPrefix| + |ts| + 12
      && k[..|outPrefix|] == outPrefix && k[|outPrefix|..|outPrefix| + 7] == "/final_"
      && k[|outPrefix| + 7..|k| - 5] == ts && k[|k| - 5..] == ".json"
  {
    var k := FinalKey(outPrefix, ts);
    assert k == outPrefix + "/final_" + ts + ".json";
    assert k[..|outPrefix|] == outPrefix;
    assert k[|outPrefix|..|outPrefix| + 7] == "/final_";
    assert k[|outPrefix| + 7..|k| - 5] == ts;
    assert k[|k| - 5..] == ".json";
  }

  /** The returned locator parses back to the first input's bucket and the final key. */
  lemma FinalLocator(input: string, outPrefix: string, ts: string)
    requires Parse(input).Ok?
    ensures var out := Ref(Parse(input).value.bucket, FinalKey(outPrefix, ts));
      WellFormed(out) && Parse(Format(out)) == Ok(out)
  {
    ParseFormat(Ref(Parse(input).value.bucket, FinalKey(outPrefix, ts)));
  }

  /**
   * The `/reduce` handler over the store. `decode` stands for `json.Unmarshal`
   * and `encode` for `json.MarshalIndent`; nothing is written unless every
   * input was read.
   */
  method Reduce(store: ObjectStore, ins: seq<string>, outPrefix: string, ts: string,
                decode: string -> Result<Counts, string>, encode: Counts -> string)
    returns (res: Result<ReduceResponse, HttpError>)
    modifies store
    ensures |ins| == 0 ==> res == Err(HttpError(BadRequest, NoInputs)) && store.objects == old(store.objects)
    ensures |ins| > 0 && Parse(ins[0]).Err? ==>
      res == Err(HttpError(BadRequest, Parse(ins[0]).error.Message())) && store.objects == old(store.objects)
    ensures |ins| > 0 && Parse(ins[0]).Ok? ==>
      var first := Parse(ins[0]).value.bucket;
      match ReadAll(Source(old(store.objects), store.faulty, first, decode), ins)
      case Err(e) => res == Err(e) && store.objects == old(store.objects)
      case Ok(parts) =>
        var out := Ref(first, FinalKey(outPrefix, ts));
        if out in store.faulty then
          res == Err(PutFailure(Unavailable)) && store.objects == old(store.objects)
        else
          res == Ok(ReduceResponse(Format(out), |ins|))
          && store.objects == old(store.objects)[out := encode(MergeAll(parts))]
  {
    if |ins| < 1 {
      return Err(HttpError(BadRequest, NoInputs));
    }
    var head := Parse(ins[0]);
    if head.Err? {
      return Err(HttpError(BadRequest, head.error.Message()));
    }
    var first := head.value.bucket;
    var merged := ReadAndMerge(store, ins, first, decode);
    if merged.Err? {
      return Err(merged.error);
    }
    var final := merged.value;
    var outKey := FinalKey(outPrefix, ts);
    var ordered, _ := OrderKeys(final);
    var body := encode(ordered);
    var put := store.Put(Ref(first, outKey), body);
    if put.Fail? {
      return Err(PutFailure(put.error));
    }
    res := Ok(ReduceResponse(Format(Ref(first, outKey)), |ins|));
  }
}
