/**
  A sharded checkpoint: the index's weight map against the headers of the shards it names.
 */
module SafetensorsIndex {
  import opened Common
  import opened Utf8
  import opened JsonSyntax
  import opened Coverage
  import opened SafetensorsHeader
  import opened ShardOrder

  /** The sum of the values of a map. */
  ghost function Total<K>(sizes: map<K, nat>): nat
    decreases |sizes|
  {
    if sizes == map[] then 0 else
      var k :| k in sizes;
      TotalShrinks(sizes, k);
      sizes[k] + Total(sizes - {k})
  }

  lemma TotalShrinks<K>(sizes: map<K, nat>, k: K)
    requires k in sizes
    ensures |sizes - {k}| < |sizes|
  {
    assert (sizes - {k}).Keys == sizes.Keys - {k};
    assert |sizes| == |sizes.Keys| && |sizes - {k}| == |(sizes - {k}).Keys|;
  }

  /** Any entry can be counted first. */
  lemma {:induction false} TotalWithout<K>(sizes: map<K, nat>, k: K)
    requires k in sizes
    ensures Total(sizes) == sizes[k] + Total(sizes - {k})
    decreases |sizes|
  {
    var first :| first in sizes && Total(sizes) == sizes[first] + Total(sizes - {first});
    if first != k {
      TotalShrinks(sizes, first);
      TotalWithout(sizes - {first}, k);
      TotalWithout(sizes - {k}, first) by {
        TotalShrinks(sizes, k);
      }
      assert sizes - {first} - {k} == sizes - {k} - {first};
    }
  }

  lemma {:induction false} TotalOfBoth<K>(a: map<K, nat>, b: map<K, nat>)
    requires a.Keys !! b.Keys
    ensures Total(a + b) == Total(a) + Total(b)
    decreases |a|
  {
    if a == map[] {
      assert a + b == b;
    } else {
      var k :| k in a;
      hide Total;
      TotalShrinks(a, k);
      WithoutOne(a, b, k);
      TotalOfBoth(a - {k}, b);
      TotalWithout(a, k);
      TotalWithout(a + b, k);
    }
  }

  lemma WithoutOne<K>(a: map<K, nat>, b: map<K, nat>, k: K)
    requires k in a && a.Keys !! b.Keys
    ensures (a + b) - {k} == (a - {k}) + b && (a - {k}).Keys !! b.Keys && (a + b)[k] == a[k] && k in a + b
  {
  }

  ghost function SizesOf(tensors: map<Name, Tensor>): map<Name, nat> {
    map name | name in tensors :: tensors[name].bytes
  }

  function Length<N>(s: seq<Range<N>>): int {
    if s == [] then 0 else Length(s[..|s| - 1]) + s[|s| - 1].end - s[|s| - 1].begin
  }

  lemma {:induction false} LengthSplits<N>(s: seq<Range<N>>, t: seq<Range<N>>)
    ensures Length(s + t) == Length(s) + Length(t)
  {
    if t == [] {
      assert s + t == s;
    } else {
      LengthSplits(s, t[..|t| - 1]);
      assert (s + t)[..|s + t| - 1] == s + t[..|t| - 1];
    }
  }

  lemma {:induction false} ChainLength<N>(s: seq<Range<N>>, n: nat)
    requires n <= |s| && Chained(s, n)
    ensures Length(s[..n]) == Cursor(s, n)
  {
    if n > 0 {
      ChainLength(s, n - 1);
      assert s[..n][..n - 1] == s[..n - 1];
    }
  }

  /** A listing of the tensors' ranges is as long as the tensors are large. */
  lemma {:induction false} ListingLength(tensors: map<Name, Tensor>, s: seq<Range<Name>>)
    requires multiset(s) == multiset(RangesOf(tensors))
    requires forall name :: name in tensors ==> tensors[name].begin + tensors[name].bytes == tensors[name].end
    ensures Length(s) == Total(SizesOf(tensors))
    decreases |tensors|
  {
    if tensors == map[] {
      assert RangesOf(tensors) == {};
      assert forall r :: r in s ==> r in multiset(s);
      assert s == [];
      assert SizesOf(tensors) == map[];
    } else {
      var name :| name in tensors;
      var r := RangeOf(name, tensors[name]);
      assert r in RangesOf(tensors);
      assert r in multiset(s);
      var i :| 0 <= i < |s| && s[i] == r;
      hide Length, Total, SizesOf;
      LengthWithout(s, i);
      RangesWithout(tensors, name);
      RemoveTensor(tensors, name);
      ListingLength(tensors - {name}, s[..i] + s[i + 1..]);
      SizeOfOne(tensors, name);
      TotalWithout(SizesOf(tensors), name);
    }
  }

  lemma SizeOfOne(tensors: map<Name, Tensor>, name: Name)
    requires name in tensors
    ensures name in SizesOf(tensors) && SizesOf(tensors)[name] == tensors[name].bytes
  {
  }

  lemma LengthWithout<N>(s: seq<Range<N>>, i: nat)
    requires i < |s|
    ensures var rest := s[..i] + s[i + 1..];
            multiset(rest) == multiset(s) - multiset{s[i]} && Length(s) == Length(rest) + s[i].end - s[i].begin
  {
    var r := s[i];
    assert s == s[..i] + ([r] + s[i + 1..]);
    assert multiset(s) == multiset(s[..i]) + (multiset{r} + multiset(s[i + 1..]));
    assert Length([r]) == r.end - r.begin by {
      assert [r][..0] == [];
    }
    hide Length;
    LengthSplits(s[..i], [r] + s[i + 1..]);
    LengthSplits([r], s[i + 1..]);
    LengthSplits(s[..i], s[i + 1..]);
  }

  lemma RemoveTensor(tensors: map<Name, Tensor>, name: Name)
    requires name in tensors
    ensures |tensors - {name}| < |tensors| && SizesOf(tensors - {name}) == SizesOf(tensors) - {name}
  {
    assert (tensors - {name}).Keys == tensors.Keys - {name};
    assert |tensors| == |tensors.Keys| && |tensors - {name}| == |(tensors - {name}).Keys|;
  }

  lemma RangesWithout(tensors: map<Name, Tensor>, name: Name)
    requires name in tensors
    ensures multiset(RangesOf(tensors - {name})) == multiset(RangesOf(tensors)) - multiset{RangeOf(name, tensors[name])}
  {
    assert tensors == (tensors - {name})[name := tensors[name]];
    RangesGrow(tensors - {name}, name, tensors[name]);
  }

  lemma {:induction false} FirstRange<N>(m: multiset<Range<N>>) returns (r: Range<N>)
    requires m != multiset{}
    ensures r in m && forall other :: other in m ==> Before(r, other)
    decreases |m|
  {
    var one :| one in m;
    var rest := m - multiset{one};
    r := one;
    if rest != multiset{} {
      var best := FirstRange(rest);
      if Before(best, one) {
        r := best;
      }
      forall other | other in m ensures Before(r, other) {
        if other != one {
          assert other in rest;
        }
      }
    } else {
      assert m == rest + multiset{one};
    }
  }

  lemma {:induction false} SortedListing<N>(m: multiset<Range<N>>) returns (s: seq<Range<N>>)
    ensures Sorted(s) && multiset(s) == m
    decreases |m|
  {
    if m == multiset{} {
      s := [];
    } else {
      var r := FirstRange(m);
      var rest := SortedListing(m - multiset{r});
      s := [r] + rest;
      assert forall other :: other in rest ==> other in m by {
        forall other | other in rest ensures other in m {
          assert other in multiset(rest);
        }
      }
    }
  }

  /** The sizes of an exact cover add up to the size of the data. */
  lemma CoverAddsUp(tensors: map<Name, Tensor>, size: nat)
    requires ExactCover(multiset(RangesOf(tensors)), size)
    requires forall name :: name in tensors ==>
               tensors[name].begin + tensors[name].bytes == tensors[name].end <= size
    ensures Total(SizesOf(tensors)) == size
  {
    var s := SortedListing(multiset(RangesOf(tensors)));
    assert WithinData(multiset(s), size);
    CoverIsChain(s, size, |s|);
    ListingLength(tensors, s);
    ChainLength(s, |s|);
    assert s[..|s|] == s;
  }

  lemma {:induction false} CoverIsChain<N>(s: seq<Range<N>>, size: nat, n: nat)
    requires Sorted(s) && WithinData(multiset(s), size) && ExactCover(multiset(s), size) && n <= |s|
    ensures Chained(s, n) && (n == |s| ==> Cursor(s, n) == size)
  {
    hide WithinData, Sorted, Covered;
    if n > 0 {
      CoverIsChain(s, size, n - 1);
      if s[n - 1].begin < Cursor(s, n - 1) {
        EarlyRangeOverlaps(s, size, n - 1);
      } else if s[n - 1].begin > Cursor(s, n - 1) {
        CursorUncovered(s, size, n - 1);
      }
    }
    if n == |s| && Cursor(s, n) != size {
      CursorUncovered(s, size, n);
    }
  }

  /** The shards are listed in ascending order of their names, each of them once. */
  datatype Index = Index(weightMap: map<Name, Name>, shards: seq<Name>, totalSize: Option<nat>)

  datatype ShardOptions = ShardOptions(maxShards: nat, maxTensors: nat, maxHeaderTensors: nat)

  datatype IndexError =
    | InvalidOption | InvalidWeightMap | TooManyTensors | UnsafeShardPath | TooManyShards | ShardSetMismatch
    | MissingTotalSize | ShardUnreadable | ArithmeticOverflow | UnexpectedTensor | TensorInWrongShard
    | DuplicateTensor | MissingIndexedTensor | PayloadSizeMismatch

  datatype Summary = Summary(shards: nat, tensors: nat, payload: nat)

  datatype IndexResult = Validated(summary: Summary) | Invalid(error: IndexError)

  /** The headers of the readable shards, as `ParseHeader` returns them. */
  type Files = map<Name, Header>

  ghost function PayloadOf(files: Files, shards: set<Name>): map<Name, nat>
    requires shards <= files.Keys
  {
    map s | s in shards :: files[s].dataSize
  }

  ghost predicate Placed(index: Index, shard: Name, tensors: map<Name, Tensor>) {
    forall name :: name in tensors ==> name in index.weightMap && index.weightMap[name] == shard
  }

  /** Every shard's tensors are the ones the weight map places there, each of them is stored, and the data
      adds up to the recorded size. */
  ghost predicate Stores(index: Index, files: Files) {
    && index.weightMap.Values <= files.Keys
    && (forall s :: s in index.weightMap.Values ==> Placed(index, s, files[s].tensors))
    && (forall name :: name in index.weightMap ==> name in files[index.weightMap[name]].tensors)
    && index.totalSize == Some(Total(PayloadOf(files, index.weightMap.Values)))
  }

  /** The entries of the weight map are sound. */
  ghost predicate SoundMap(index: Index, safe: Name -> bool, options: ShardOptions) {
    && |index.weightMap.Values| <= options.maxShards
    && forall name :: name in index.weightMap ==> name != [] && index.weightMap[name] != [] && safe(index.weightMap[name])
  }

  /** The index is well-formed and within its limits, and it and its shards agree. */
  ghost predicate Consistent(index: Index, files: Files, safe: Name -> bool, options: ShardOptions) {
    && options.maxShards > 0 && options.maxTensors > 0 && options.maxHeaderTensors > 0
    && index.weightMap != map[] && |index.weightMap| <= options.maxTensors && SoundMap(index, safe, options)
    && Ascending(index.shards) && NamesOf(index.shards) == index.weightMap.Values && Stores(index, files)
  }

  /** The entries of the weight map: names and shards are not empty, shard paths are safe, and there are
      not too many shards. */
  method ReferencedShards(index: Index, safe: Name -> bool, options: ShardOptions)
    returns (r: Option<IndexError>, shards: seq<Name>)
    ensures r.None? ==> Ascending(shards) && NamesOf(shards) == index.weightMap.Values && |shards| <= options.maxShards
    ensures r.Some? ==> r.value.InvalidWeightMap? || r.value.UnsafeShardPath? || r.value.TooManyShards?
    ensures r.None? <==> SoundMap(index, safe, options)
    ensures r != Some(DuplicateTensor)
  {
    shards := [];
    var left := index.weightMap.Keys;
    while left != {}
      invariant left <= index.weightMap.Keys && Ascending(shards) && |shards| == |NamesOf(shards)|
      invariant NamesOf(shards) == set name | name in index.weightMap && name !in left :: index.weightMap[name]
      invariant |shards| <= options.maxShards
      invariant forall name :: name in index.weightMap && name !in left ==>
                  name != [] && index.weightMap[name] != [] && safe(index.weightMap[name])
      decreases |left|
    {
      var name :| name in left;
      left := left - {name};
      var shard := index.weightMap[name];
      if name == [] || shard == [] {
        return Some(InvalidWeightMap), shards;
      }
      if !safe(shard) {
        return Some(UnsafeShardPath), shards;
      }
      shards := InsertName(shards, shard);
      if |shards| > options.maxShards {
        assert NamesOf(shards) <= index.weightMap.Values;
        SubsetIsSmaller(NamesOf(shards), index.weightMap.Values);
        return Some(TooManyShards), shards;
      }
    }
    assert NamesOf(shards) == index.weightMap.Values;
    r := None;
  }

  lemma OneMore<T>(s: set<T>, x: T)
    requires x !in s
    ensures |s + {x}| == |s| + 1
  {
  }

  lemma SubsetIsSmaller<T>(a: set<T>, b: set<T>)
    requires a <= b
    ensures |a| <= |b|
  {
    assert b == a + (b - a);
  }

  /** One stored tensor, not met before in this shard: it must be one that the weight map places here. */
  method CheckTensor(index: Index, shard: Name, name: Name, seen: set<Name>, options: ShardOptions) returns (error: Option<IndexError>)
    requires |index.weightMap| <= options.maxTensors && seen <= index.weightMap.Keys
    requires name in seen ==> index.weightMap[name] != shard
    ensures error.None? <==> name in index.weightMap && index.weightMap[name] == shard
    ensures error.None? || error.value.UnexpectedTensor? || error.value.TensorInWrongShard?
  {
    if name !in index.weightMap {
      return Some(UnexpectedTensor);
    }
    if index.weightMap[name] != shard {
      return Some(TensorInWrongShard);
    }
    if name in seen {
      return Some(DuplicateTensor);
    }
    OneMore(seen, name);
    SubsetIsSmaller(seen + {name}, index.weightMap.Keys);
    if |seen| >= options.maxTensors {
      return Some(IndexError.TooManyTensors);
    }
    error := None;
  }

  /** The tensors of one shard are looked up one by one. */
  method CheckShard(index: Index, shard: Name, header: Header, seen: set<Name>, options: ShardOptions)
    returns (error: Option<IndexError>, after: set<Name>)
    requires |index.weightMap| <= options.maxTensors && seen <= index.weightMap.Keys
    requires forall name :: name in seen ==> index.weightMap[name] != shard
    ensures error.None? <==> Placed(index, shard, header.tensors)
    ensures error.None? ==> after == seen + header.tensors.Keys <= index.weightMap.Keys
    ensures error.None? || error.value.UnexpectedTensor? || error.value.TensorInWrongShard?
  {
    error, after := None, seen;
    var left := header.tensors.Keys;
    while left != {}
      invariant left <= header.tensors.Keys && after == seen + (header.tensors.Keys - left) <= index.weightMap.Keys
      invariant forall name :: name in header.tensors && name !in left ==> name in index.weightMap && index.weightMap[name] == shard
      invariant error.None?
      decreases |left|
    {
      var name :| name in left;
      left := left - {name};
      error := CheckTensor(index, shard, name, after, options);
      if error.Some? {
        return;
      }
      after := after + {name};
    }
  }

  ghost function StoredIn(files: Files, shards: set<Name>): set<Name>
    requires shards <= files.Keys
  {
    set s, name | s in shards && name in files[s].tensors :: name
  }

  /** What the shards looked at so far have shown. */
  ghost predicate Checked(index: Index, files: Files, done: set<Name>, seen: set<Name>, payload: nat) {
    && done <= files.Keys && (forall s :: s in done ==> Placed(index, s, files[s].tensors))
    && seen == StoredIn(files, done) && payload == Total(PayloadOf(files, done))
  }

  lemma NoneChecked(index: Index, files: Files)
    ensures Checked(index, files, {}, {}, 0)
  {
    assert PayloadOf(files, {}) == map[];
  }

  lemma CheckedGrows(index: Index, files: Files, done: set<Name>, seen: set<Name>, payload: nat, shard: Name)
    requires Checked(index, files, done, seen, payload) && shard !in done && shard in files
    ensures payload + files[shard].dataSize == Total(PayloadOf(files, done + {shard}))
    ensures Placed(index, shard, files[shard].tensors) ==>
              Checked(index, files, done + {shard}, seen + files[shard].tensors.Keys, payload + files[shard].dataSize)
  {
    hide Total, Placed;
    PayloadGrows(files, done, shard);
    assert StoredIn(files, done + {shard}) == StoredIn(files, done) + files[shard].tensors.Keys;
  }

  lemma CheckedStep(index: Index, files: Files, done: set<Name>, seen: set<Name>, payload: nat, shard: Name,
                    after: set<Name>, total: nat)
    requires Checked(index, files, done, seen, payload) && shard !in done && shard in files
    requires Placed(index, shard, files[shard].tensors)
    requires after == seen + files[shard].tensors.Keys && total == payload + files[shard].dataSize
    ensures Checked(index, files, done + {shard}, after, total)
  {
    CheckedGrows(index, files, done, seen, payload, shard);
  }

  lemma SeenIsPlaced(index: Index, files: Files, done: set<Name>, seen: set<Name>, payload: nat)
    requires Checked(index, files, done, seen, payload)
    ensures seen <= index.weightMap.Keys && forall name :: name in seen ==>
              index.weightMap[name] in done && name in files[index.weightMap[name]].tensors
  {
    hide Total;
  }

  /** One more shard: its data is added up and its tensors are checked. */
  method CheckNext(index: Index, files: Files, shard: Name, seen: set<Name>, payload: nat, options: ShardOptions,
                   ghost done: set<Name>)
    returns (error: Option<IndexError>, after: set<Name>, total: nat)
    requires |index.weightMap| <= options.maxTensors && shard !in done
    requires done <= files.Keys && Checked(index, files, done, seen, payload) && payload <= UINT64_MAX
    ensures error.None? ==> shard in files && Checked(index, files, done + {shard}, after, total) && total <= UINT64_MAX
    ensures error.Some? ==> shard !in files || !Placed(index, shard, files[shard].tensors)
                            || Total(PayloadOf(files, done + {shard})) > UINT64_MAX
    ensures error != Some(DuplicateTensor) && error != Some(IndexError.TooManyShards)
  {
    hide Total, Placed, Checked, StoredIn, PayloadOf;
    after, total := seen, payload;
    if shard !in files {
      return Some(ShardUnreadable), after, total;
    }
    CheckedGrows(index, files, done, seen, payload, shard);
    SeenIsPlaced(index, files, done, seen, payload);
    if files[shard].dataSize > UINT64_MAX - payload {
      return Some(IndexError.ArithmeticOverflow), after, total;
    }
    total := payload + files[shard].dataSize;
    error, after := CheckShard(index, shard, files[shard], seen, options);
    if error.None? {
      CheckedStep(index, files, done, seen, payload, shard, after, total);
    }
  }

  /** All shards, in their order: what was seen, and the bytes of their data. */
  method CheckShards(index: Index, files: Files, shards: seq<Name>, options: ShardOptions)
    returns (error: Option<IndexError>, seen: set<Name>, payload: nat)
    requires |index.weightMap| <= options.maxTensors && Ascending(shards) && |shards| <= options.maxShards
    ensures error.None? ==> Checked(index, files, NamesOf(shards), seen, payload) && payload <= UINT64_MAX
    ensures error.Some? ==>
              || !(NamesOf(shards) <= files.Keys) || (exists s :: s in NamesOf(shards) && !Placed(index, s, files[s].tensors))
              || Total(PayloadOf(files, NamesOf(shards))) > UINT64_MAX
    ensures error != Some(DuplicateTensor) && error != Some(IndexError.TooManyShards)
  {
    assert NamesOf(shards[..0]) == {};
    hide Total, Placed, Checked, StoredIn, PayloadOf, Ascending, NamesOf;
    error, seen, payload := None, {}, 0;
    NoneChecked(index, files);
    for count := 0 to |shards|
      invariant NamesOf(shards[..count]) <= files.Keys && payload <= UINT64_MAX && error.None?
      invariant Checked(index, files, NamesOf(shards[..count]), seen, payload)
    {
      NextName(shards, count);
      ghost var done := NamesOf(shards[..count]);
      if count >= options.maxShards {
        return Some(IndexError.TooManyShards), seen, payload;
      }
      error, seen, payload := CheckNext(index, files, shards[count], seen, payload, options, done);
      if error.Some? {
        PayloadMonotone(files, done + {shards[count]}, NamesOf(shards));
        return;
      }
    }
    assert shards[..|shards|] == shards;
  }

  lemma PayloadGrows(files: Files, done: set<Name>, shard: Name)
    requires done <= files.Keys && shard in files && shard !in done
    ensures Total(PayloadOf(files, done + {shard})) == Total(PayloadOf(files, done)) + files[shard].dataSize
  {
    TotalWithout(PayloadOf(files, done + {shard}), shard);
    assert PayloadOf(files, done + {shard}) - {shard} == PayloadOf(files, done);
  }

  lemma {:induction false} PayloadMonotone(files: Files, a: set<Name>, b: set<Name>)
    requires a <= b
    ensures !(b <= files.Keys) || Total(PayloadOf(files, a)) <= Total(PayloadOf(files, b))
    decreases |b - a|
  {
    if b <= a {
      assert a == b;
    } else if b <= files.Keys {
      var s :| s in b && s !in a;
      assert b - (a + {s}) == (b - a) - {s};
      PayloadGrows(files, a, s);
      PayloadMonotone(files, a + {s}, b);
    }
  }

  /** The shards' headers against the weight map and the recorded size. */
  method CheckContents(index: Index, files: Files, shards: seq<Name>, options: ShardOptions) returns (r: IndexResult)
    requires |index.weightMap| <= options.maxTensors && Ascending(shards) && |shards| <= options.maxShards
    requires NamesOf(shards) == index.weightMap.Values
    requires index.totalSize.Some? ==> index.totalSize.value <= UINT64_MAX
    ensures r.Validated? <==> Stores(index, files)
    ensures r.Validated? ==> r.summary == Summary(|shards|, |index.weightMap|, index.totalSize.value)
    ensures r != Invalid(DuplicateTensor)
  {
    hide Total, Placed, Checked, PayloadOf, Ascending, NamesOf;
    if index.totalSize.None? {
      return Invalid(MissingTotalSize);
    }
    var error, seen, payload := CheckShards(index, files, shards, options);
    if error.Some? {
      return Invalid(error.value);
    }
    SeenIsPlaced(index, files, NamesOf(shards), seen, payload);
    CheckedFacts(index, files, NamesOf(shards), seen, payload);
    if exists name :: name in index.weightMap.Keys && name !in seen {
      return Invalid(MissingIndexedTensor);
    }
    assert seen == index.weightMap.Keys;
    if |seen| != |index.weightMap| {
      return Invalid(IndexError.ArithmeticOverflow);
    }
    if payload != index.totalSize.value {
      return Invalid(PayloadSizeMismatch);
    }
    r := Validated(Summary(|shards|, |seen|, payload));
  }

  /** The index is accepted exactly when it and its shards agree; the check for a tensor stored twice can no
      longer fail once the weight map has passed. */
  method ValidateIndexShards(index: Index, files: Files, safe: Name -> bool, options: ShardOptions) returns (r: IndexResult)
    requires index.totalSize.Some? ==> index.totalSize.value <= UINT64_MAX
    ensures r.Validated? <==> Consistent(index, files, safe, options)
    ensures r.Validated? ==> r.summary == Summary(|index.shards|, |index.weightMap|, index.totalSize.value)
    ensures r != Invalid(DuplicateTensor)
  {
    hide Stores, SoundMap, Ascending, NamesOf;
    if options.maxShards == 0 || options.maxTensors == 0 || options.maxHeaderTensors == 0 {
      return Invalid(InvalidOption);
    }
    if index.weightMap == map[] {
      return Invalid(InvalidWeightMap);
    }
    if |index.weightMap| > options.maxTensors {
      return Invalid(IndexError.TooManyTensors);
    }
    var error, shards := ReferencedShards(index, safe, options);
    if error.Some? {
      return Invalid(error.value);
    }
    if index.shards != shards {
      assert !(Ascending(index.shards) && NamesOf(index.shards) == NamesOf(shards)) by {
        if Ascending(index.shards) && NamesOf(index.shards) == NamesOf(shards) {
          AscendingIsUnique(index.shards, shards);
        }
      }
      return Invalid(ShardSetMismatch);
    }
    r := CheckContents(index, files, shards, options);
  }

  lemma CheckedFacts(index: Index, files: Files, done: set<Name>, seen: set<Name>, payload: nat)
    requires Checked(index, files, done, seen, payload)
    ensures done <= files.Keys && (forall s :: s in done ==> Placed(index, s, files[s].tensors))
    ensures payload == Total(PayloadOf(files, done))
    ensures forall name ::
              (name in index.weightMap && index.weightMap[name] in done && name in files[index.weightMap[name]].tensors) ==>
                name in seen
  {
    hide Total, Placed;
  }

  /** A shard stores exactly the tensors that the weight map places there. */
  lemma StoredTensorsAreTheWeightMap(index: Index, files: Files, safe: Name -> bool, options: ShardOptions)
    requires Consistent(index, files, safe, options)
    ensures forall s, name :: s in NamesOf(index.shards) ==>
              (name in files[s].tensors <==> name in index.weightMap && index.weightMap[name] == s)
  {
    hide Total;
  }

  /** The bytes of the weight map's tensors that lie in these shards. */
  ghost function BytesIn(index: Index, files: Files, shards: set<Name>): map<Name, nat>
    requires forall name :: name in index.weightMap ==>
               index.weightMap[name] in files && name in files[index.weightMap[name]].tensors
  {
    map name | name in index.weightMap && index.weightMap[name] in shards ::
      files[index.weightMap[name]].tensors[name].bytes
  }

  lemma {:induction false} BytesOfShards(index: Index, files: Files, shards: set<Name>)
    requires forall name :: name in index.weightMap ==>
               index.weightMap[name] in files && name in files[index.weightMap[name]].tensors
    requires shards <= files.Keys && forall s, name :: s in shards ==>
               (name in files[s].tensors <==> name in index.weightMap && index.weightMap[name] == s)
    requires forall s :: s in shards ==> Total(SizesOf(files[s].tensors)) == files[s].dataSize
    ensures Total(BytesIn(index, files, shards)) == Total(PayloadOf(files, shards))
    decreases |shards|
  {
    hide Total, BytesIn, PayloadOf, SizesOf;
    if shards == {} {
      NothingStored(index, files);
    } else {
      var s :| s in shards;
      var rest := shards - {s};
      BytesOfShards(index, files, rest);
      assert rest + {s} == shards;
      PayloadGrows(files, rest, s);
      BytesGrow(index, files, rest, s);
    }
  }

  lemma NothingStored(index: Index, files: Files)
    requires forall name :: name in index.weightMap ==>
               index.weightMap[name] in files && name in files[index.weightMap[name]].tensors
    ensures Total(BytesIn(index, files, {})) == Total(PayloadOf(files, {})) == 0
  {
    assert BytesIn(index, files, {}) == map[] && PayloadOf(files, {}) == map[];
  }

  lemma BytesGrow(index: Index, files: Files, shards: set<Name>, s: Name)
    requires forall name :: name in index.weightMap ==>
               index.weightMap[name] in files && name in files[index.weightMap[name]].tensors
    requires s in files && s !in shards
    requires forall name :: name in files[s].tensors <==> name in index.weightMap && index.weightMap[name] == s
    ensures Total(BytesIn(index, files, shards + {s})) == Total(BytesIn(index, files, shards)) + Total(SizesOf(files[s].tensors))
  {
    hide Total;
    TotalOfBoth(BytesIn(index, files, shards), SizesOf(files[s].tensors));
    assert BytesIn(index, files, shards + {s}) == BytesIn(index, files, shards) + SizesOf(files[s].tensors);
  }

  /** A header's tensors are as large as its data. */
  lemma HeaderAddsUp(document: Value, fileSize: nat, headerSize: nat, options: ReadOptions, h: Header)
    requires HeaderOf(document, fileSize, headerSize, options, h)
    ensures Total(SizesOf(h.tensors)) == h.dataSize
  {
    hide ToUint64, BitWidth, NoOverflow, Product, ShapeOf, OffsetsOf, ExactCover, Total, SizesOf;
    CoverAddsUp(h.tensors, h.dataSize);
  }

  /** The recorded size of an accepted index is the sum of the sizes of all its tensors. */
  lemma TensorsAddUpToTotalSize(index: Index, files: Files, safe: Name -> bool, options: ShardOptions)
    requires Consistent(index, files, safe, options)
    requires forall s :: s in NamesOf(index.shards) ==> Total(SizesOf(files[s].tensors)) == files[s].dataSize
    ensures var sizes := BytesIn(index, files, NamesOf(index.shards));
            sizes.Keys == index.weightMap.Keys && index.totalSize == Some(Total(sizes))
  {
    hide Total, SizesOf, Ascending, NamesOf, Placed;
    StoredTensorsAreTheWeightMap(index, files, safe, options);
    BytesOfShards(index, files, NamesOf(index.shards));
  }
}
