/** The test runner: scripts/run-tests.ts. */
module RunTests {
  /*
    It deals files to bins: machines, then processes. File names are strings; `weight` is a file's
    bytes or measured seconds, `locale` the order of `localeCompare` and `byPath` the code-unit order
    of a plain `sort`.
   */

  import opened Orders
  import opened Scheduling

  type Order = (string, string) -> bool

  // ---------- the multiset of what a list of bins holds ----------

  function Union<T>(bins: seq<seq<T>>): multiset<T> {
    if bins == [] then multiset{} else Union(bins[..|bins| - 1]) + multiset(bins[|bins| - 1])
  }

  lemma Regroup<T>(u: multiset<T>, x: multiset<T>, v: multiset<T>, y: multiset<T>, z: multiset<T>)
    requires u + x == v + y
    ensures (u + z) + x == (v + z) + y
  {
    assert (u + z) + x == (u + x) + z;
    assert (v + z) + y == (v + y) + z;
  }

  lemma {:induction false} UnionReplace<T>(bins: seq<seq<T>>, b: nat, bin: seq<T>)
    requires b < |bins|
    ensures Union(bins[b := bin]) + multiset(bins[b]) == Union(bins) + multiset(bin)
  {
    var n := |bins| - 1;
    var after := bins[b := bin];
    if b < n {
      assert after[..n] == bins[..n][b := bin];
      UnionReplace(bins[..n], b, bin);
      Regroup(Union(after[..n]), multiset(bins[b]), Union(bins[..n]), multiset(bin), multiset(bins[n]));
    } else {
      assert after[..n] == bins[..n];
    }
  }

  lemma MultisetLast<T>(s: seq<T>)
    requires s != []
    ensures multiset(s) == multiset(s[..|s| - 1]) + multiset{s[|s| - 1]}
  {
    assert s == s[..|s| - 1] + [s[|s| - 1]];
  }

  lemma Cancel<T>(u: multiset<T>, x: multiset<T>, v: multiset<T>, z: multiset<T>)
    requires u + x == v + (x + z)
    ensures u == v + z
  {
    assert u == (u + x) - x;
    assert v + z == (v + (x + z)) - x;
  }

  lemma UnionAppend<T>(bins: seq<seq<T>>, b: nat, x: T)
    requires b < |bins|
    ensures Union(bins[b := bins[b] + [x]]) == Union(bins) + multiset{x}
  {
    var after := bins[b] + [x];
    UnionReplace(bins, b, after);
    assert multiset(after) == multiset(bins[b]) + multiset{x};
    Cancel(Union(bins[b := after]), multiset(bins[b]), Union(bins), multiset{x});
  }

  lemma UnionDrop<T>(bins: seq<seq<T>>, b: nat, k: nat)
    requires b < |bins| && k < |bins[b]|
    ensures Union(bins) == Union(bins[b := bins[b][..k] + bins[b][k + 1..]]) + multiset{bins[b][k]}
  {
    var x := bins[b][k];
    var rest := bins[b][..k] + bins[b][k + 1..];
    assert bins[b] == bins[b][..k] + ([x] + bins[b][k + 1..]);
    assert multiset(bins[b]) == multiset(rest) + multiset{x};
    UnionReplace(bins, b, rest);
    Cancel(Union(bins), multiset(rest), Union(bins[b := rest]), multiset{x});
  }

  lemma {:induction false} UnionMember<T>(bins: seq<seq<T>>, x: T) returns (b: nat, k: nat)
    requires x in Union(bins)
    ensures b < |bins| && k < |bins[b]| && bins[b][k] == x
  {
    var n := |bins| - 1;
    if x in bins[n] {
      b, k := n, 0;
      k :| 0 <= k < |bins[n]| && bins[n][k] == x;
    } else {
      b, k := UnionMember(bins[..n], x);
    }
  }

  // ---------- deal ----------

  function Weights(files: seq<string>, weight: string -> real): (ws: seq<real>)
    ensures |ws| == |files| && forall i :: 0 <= i < |files| ==> ws[i] == weight(files[i])
  {
    seq(|files|, i requires 0 <= i < |files| => weight(files[i]))
  }

  function Weight(files: seq<string>, weight: string -> real): real {
    Sum(Weights(files, weight))
  }

  /** Heavier first, ties by name. */
  function Heavier(weight: string -> real, locale: Order): Order {
    (a, b) => weight(a) > weight(b) || (weight(a) == weight(b) && locale(a, b))
  }

  lemma HeavierIsTotal(weight: string -> real, locale: Order)
    requires StrictTotalOrder(locale)
    ensures StrictTotalOrder(Heavier(weight, locale))
  {
    var less := Heavier(weight, locale);
    forall x, y ensures !less(x, x) && (x == y || less(x, y) || less(y, x)) {
      assert x == y || locale(x, y) || locale(y, x);
    }
    forall x, y, z | less(x, y) && less(y, z) ensures less(x, z) {
      assert locale(x, y) && locale(y, z) ==> locale(x, z);
    }
  }

  /** The files of bin `b`, in the order they were dealt. */
  function FilesOf<T>(order: seq<T>, a: seq<nat>, b: nat): seq<T>
    requires |a| == |order|
  {
    if order == [] then []
    else
      var n := |order| - 1;
      FilesOf(order[..n], a[..n], b) + (if a[n] == b then [order[n]] else [])
  }

  function Split<T>(order: seq<T>, a: seq<nat>, m: nat): (bins: seq<seq<T>>)
    requires |a| == |order|
    ensures |bins| == m && forall b :: 0 <= b < m ==> bins[b] == FilesOf(order, a, b)
  {
    seq(m, b requires 0 <= b < m => FilesOf(order, a, b))
  }

  function Dealt(files: seq<string>, m: nat, weight: string -> real, locale: Order): (bins: seq<seq<string>>)
    ensures |bins| == m
  {
    var order := Sort(Heavier(weight, locale), files);
    if m == 0 then [] else Split(order, Greedy(Weights(order, weight), m), m)
  }

  datatype Bin = Bin(load: real, files: seq<string>)

  function LoadsOf(bins: seq<Bin>): (loads: seq<real>)
    ensures |loads| == |bins| && forall b :: 0 <= b < |bins| ==> loads[b] == bins[b].load
  {
    seq(|bins|, b requires 0 <= b < |bins| => bins[b].load)
  }

  /** The bins of the greedy schedule of `order`. */
  ghost function Filled(order: seq<string>, m: nat, weight: string -> real): (bins: seq<Bin>)
    requires m >= 1
  {
    var ws := Weights(order, weight);
    var a := Greedy(ws, m);
    seq(m, b requires 0 <= b < m => Bin(Load(ws, a, b), FilesOf(order, a, b)))
  }

  function Place(bins: seq<Bin>, k: nat, file: string, load: real): seq<Bin>
    requires k < |bins|
  {
    bins[k := Bin(bins[k].load + load, bins[k].files + [file])]
  }

  lemma FilledStep(order: seq<string>, m: nat, weight: string -> real)
    requires m >= 1 && order != []
    ensures var n := |order| - 1; var before := Filled(order[..n], m, weight);
            Filled(order, m, weight) == Place(before, Lightest(LoadsOf(before)), order[n], weight(order[n]))
  {
    var n := |order| - 1;
    var before := Filled(order[..n], m, weight);
    var ws := Weights(order, weight);
    var a := Greedy(ws, m);
    GreedyLast(order, m, weight);
    forall b | 0 <= b < m
      ensures Filled(order, m, weight)[b] == Place(before, a[n], order[n], weight(order[n]))[b]
    {
      FilledBin(order, a, b, weight);
    }
  }

  lemma GreedyLast(order: seq<string>, m: nat, weight: string -> real)
    requires m >= 1 && order != []
    ensures var n := |order| - 1; var a := Greedy(Weights(order, weight), m);
            && a[..n] == Greedy(Weights(order[..n], weight), m)
            && a[n] == Lightest(LoadsOf(Filled(order[..n], m, weight)))
  {
    var n := |order| - 1;
    var ws := Weights(order[..n], weight);
    assert Weights(order, weight)[..n] == ws;
    assert LoadsOf(Filled(order[..n], m, weight)) == Loads(ws, Greedy(ws, m), m);
  }

  lemma FilledBin(order: seq<string>, a: seq<nat>, b: nat, weight: string -> real)
    requires |a| == |order| > 0
    ensures var n := |order| - 1; var ws := Weights(order[..n], weight);
            && Load(Weights(order, weight), a, b) == Load(ws, a[..n], b) + (if a[n] == b then weight(order[n]) else 0.0)
            && FilesOf(order, a, b) == FilesOf(order[..n], a[..n], b) + if a[n] == b then [order[n]] else []
  {
    var n := |order| - 1;
    assert Weights(order, weight)[..n] == Weights(order[..n], weight);
  }

  lemma FilledIsDealt(files: seq<string>, m: nat, weight: string -> real, locale: Order)
    requires m >= 1
    ensures var bins := Filled(Sort(Heavier(weight, locale), files), m, weight);
            seq(m, b requires 0 <= b < m => bins[b].files) == Dealt(files, m, weight, locale)
  {
  }

  method LightestBin(loads: array<Bin>) returns (lightest: nat)
    requires loads.Length >= 1
    ensures lightest < loads.Length && lightest == Lightest(LoadsOf(loads[..]))
  {
    ghost var all := LoadsOf(loads[..]);
    lightest := 0;
    for b := 1 to loads.Length
      invariant lightest < b && lightest == Lightest(all[..b])
    {
      assert all[..b + 1][..b] == all[..b];
      if loads[b].load < loads[lightest].load { lightest := b; }
    }
    assert all[..loads.Length] == all;
  }

  /** One turn of the dealing loop: `file` goes to the lightest bin. */
  method PlaceOnLightest(loads: array<Bin>, file: string, load: real)
    requires loads.Length >= 1
    modifies loads
    ensures loads[..] == Place(old(loads[..]), Lightest(LoadsOf(old(loads[..]))), file, load)
  {
    var k := LightestBin(loads);
    loads[k] := Bin(loads[k].load + load, loads[k].files + [file]);
  }

  /** The dealing loop over bins that start empty. */
  method FillBins(loads: array<Bin>, order: seq<string>, weight: string -> real)
    requires loads.Length >= 1 && forall b :: 0 <= b < loads.Length ==> loads[b] == Bin(0.0, [])
    modifies loads
    ensures loads[..] == Filled(order, loads.Length, weight)
  {
    for i := 0 to |order|
      invariant loads[..] == Filled(order[..i], loads.Length, weight)
    {
      PlaceOnLightest(loads, order[i], weight(order[i]));
      assert order[..i + 1][..i] == order[..i];
      FilledStep(order[..i + 1], loads.Length, weight);
    }
    assert order[..|order|] == order;
  }

  /**
    Longest processing time first. `None` is the exception of reducing an empty list of bins,
    which a count below one meets on the first file.
   */
  method Deal(files: seq<string>, count: int, weight: string -> real, locale: Order)
    returns (r: Option<seq<seq<string>>>)
    ensures r.None? <==> count <= 0 && files != []
    ensures r.Some? ==> r.value == Dealt(files, if count < 0 then 0 else count, weight, locale)
  {
    var m := if count < 0 then 0 else count;
    var loads := new Bin[m](_ => Bin(0.0, []));
    var heaviestFirst := Sort(Heavier(weight, locale), files);
    SortLength(Heavier(weight, locale), files);
    if m == 0 && heaviestFirst != [] { return None; }
    if m >= 1 { FillBins(loads, heaviestFirst, weight); }
    var bins := loads[..];
    if m >= 1 { FilledIsDealt(files, m, weight, locale); }
    r := Some(seq(m, b requires 0 <= b < |bins| => bins[b].files));
  }

  // ---------- what dealing promises ----------

  lemma {:induction false} SplitCovers<T>(order: seq<T>, a: seq<nat>, m: nat)
    requires IsSchedule(a, |order|, m)
    ensures Union(Split(order, a, m)) == multiset(order)
  {
    if order == [] {
      UnionOfEmpty(Split(order, a, m));
    } else {
      var n := |order| - 1;
      SplitCovers(order[..n], a[..n], m);
      SplitUnionStep(order, a, m);
      MultisetLast(order);
    }
  }

  lemma SplitUnionStep<T>(order: seq<T>, a: seq<nat>, m: nat)
    requires IsSchedule(a, |order|, m) && order != []
    ensures var n := |order| - 1;
            Union(Split(order, a, m)) == Union(Split(order[..n], a[..n], m)) + multiset{order[n]}
  {
    var n := |order| - 1;
    var before, after := Split(order[..n], a[..n], m), Split(order, a, m);
    SplitStep(order, a, m);
    UnionAppend(before, a[n], order[n]);
  }

  lemma SplitStep<T>(order: seq<T>, a: seq<nat>, m: nat)
    requires IsSchedule(a, |order|, m) && order != []
    ensures var n := |order| - 1; var before := Split(order[..n], a[..n], m);
            Split(order, a, m) == before[a[n] := before[a[n]] + [order[n]]]
  {
    var n := |order| - 1;
    var bins, before := Split(order, a, m), Split(order[..n], a[..n], m);
    forall c | 0 <= c < m ensures bins[c] == before[a[n] := before[a[n]] + [order[n]]][c] {
      assert bins[c] == before[c] + if c == a[n] then [order[n]] else [];
    }
  }

  lemma {:induction false} UnionOfEmpty<T>(bins: seq<seq<T>>)
    requires forall b :: 0 <= b < |bins| ==> bins[b] == []
    ensures Union(bins) == multiset{}
  {
    if bins != [] { UnionOfEmpty(bins[..|bins| - 1]); }
  }

  /** Every file lands in exactly one bin, as often as it was listed. */
  lemma DealtCovers(files: seq<string>, m: nat, weight: string -> real, locale: Order)
    requires m >= 1 && StrictTotalOrder(locale)
    ensures Union(Dealt(files, m, weight, locale)) == multiset(files)
  {
    var order := Sort(Heavier(weight, locale), files);
    HeavierIsTotal(weight, locale);
    SortSorts(Heavier(weight, locale), files);
    SplitCovers(order, Greedy(Weights(order, weight), m), m);
  }

  /** Machines that collect the same files in any order compute the same bins. */
  lemma DealtDeterministic(files: seq<string>, again: seq<string>, m: nat, weight: string -> real, locale: Order)
    requires StrictTotalOrder(locale) && multiset(files) == multiset(again)
    ensures Dealt(files, m, weight, locale) == Dealt(again, m, weight, locale)
  {
    var less := Heavier(weight, locale);
    HeavierIsTotal(weight, locale);
    SortSorts(less, files);
    SortSorts(less, again);
    SortedUnique(less, Sort(less, files), Sort(less, again));
  }

  lemma {:induction false} BinWeight(order: seq<string>, a: seq<nat>, b: nat, weight: string -> real)
    requires |a| == |order|
    ensures Weight(FilesOf(order, a, b), weight) == Load(Weights(order, weight), a, b)
  {
    if order != [] {
      var n := |order| - 1;
      BinWeight(order[..n], a[..n], b, weight);
      assert Weights(order, weight)[..n] == Weights(order[..n], weight);
      var bin := FilesOf(order, a, b);
      if a[n] == b {
        assert bin[..|bin| - 1] == FilesOf(order[..n], a[..n], b);
        assert Weights(bin, weight)[..|bin| - 1] == Weights(bin[..|bin| - 1], weight);
      } else {
        assert bin == FilesOf(order[..n], a[..n], b);
      }
    }
  }

  lemma {:induction false} WeightRemove(files: seq<string>, k: nat, weight: string -> real)
    requires k < |files|
    ensures Weight(files[..k] + files[k + 1..], weight) == Weight(files, weight) - weight(files[k])
  {
    var n := |files| - 1;
    assert Weights(files, weight)[..n] == Weights(files[..n], weight);
    var rest := files[..k] + files[k + 1..];
    if k == n {
      assert rest == files[..n];
    } else {
      WeightRemove(files[..n], k, weight);
      assert rest[..n - 1] == files[..n][..k] + files[..n][k + 1..];
      assert Weights(rest, weight)[..n - 1] == Weights(rest[..n - 1], weight);
      assert rest[n - 1] == files[n];
    }
  }

  /** Any way to put the files into `m` bins is a schedule of them with the same loads. */
  lemma {:induction false} ScheduleOf(order: seq<string>, bins: seq<seq<string>>, weight: string -> real)
    returns (a: seq<nat>)
    requires Union(bins) == multiset(order)
    ensures IsSchedule(a, |order|, |bins|)
    ensures forall b :: 0 <= b < |bins| ==> Load(Weights(order, weight), a, b) == Weight(bins[b], weight)
    decreases |order|
  {
    if order == [] {
      a := [];
      forall b | 0 <= b < |bins| ensures bins[b] == [] {
        if bins[b] != [] { MemberOfUnion(bins, b, 0); }
      }
    } else {
      var n := |order| - 1;
      var b, rest := TakeOut(bins, order, weight);
      var before := ScheduleOf(order[..n], rest, weight);
      a := before + [b];
      assert a[..n] == before;
      assert Weights(order, weight)[..n] == Weights(order[..n], weight);
      forall c | 0 <= c < |bins| ensures Load(Weights(order, weight), a, c) == Weight(bins[c], weight) {
        assert Load(Weights(order[..n], weight), before, c) == Weight(rest[c], weight);
      }
    }
  }

  /** The last file of `order`, taken out of the bin that holds it. */
  lemma TakeOut(bins: seq<seq<string>>, order: seq<string>, weight: string -> real)
    returns (b: nat, rest: seq<seq<string>>)
    requires order != [] && Union(bins) == multiset(order)
    ensures b < |bins| == |rest| && Union(rest) == multiset(order[..|order| - 1])
    ensures forall c :: 0 <= c < |bins| ==>
      Weight(rest[c], weight) == Weight(bins[c], weight) - if c == b then weight(order[|order| - 1]) else 0.0
  {
    var n := |order| - 1;
    var file := order[n];
    assert order == order[..n] + [file];
    var k;
    b, k := UnionMember(bins, file);
    rest := bins[b := bins[b][..k] + bins[b][k + 1..]];
    UnionDrop(bins, b, k);
    WeightRemove(bins[b], k, weight);
    assert Union(rest) == multiset(order) - multiset{file};
  }

  lemma {:induction false} MemberOfUnion<T>(bins: seq<seq<T>>, b: nat, k: nat)
    requires b < |bins| && k < |bins[b]|
    ensures bins[b][k] in Union(bins)
  {
    if b < |bins| - 1 { MemberOfUnion(bins[..|bins| - 1], b, k); }
  }

  /**
    Graham's bound for `deal`: however else the files are put into `m` bins, if no bin of that
    other arrangement weighs more than `T`, none of `deal`'s exceeds (4/3 - 1/(3m)) * T.
   */
  lemma DealtWithinGraham(files: seq<string>, m: nat, weight: string -> real, locale: Order,
                          b: nat, other: seq<seq<string>>, T: real)
    requires b < m && StrictTotalOrder(locale)
    requires forall f :: weight(f) >= 0.0
    requires |other| == m && Union(other) == multiset(files)
    requires forall c :: 0 <= c < m ==> Weight(other[c], weight) <= T
    ensures WithinGraham(m, Weight(Dealt(files, m, weight, locale)[b], weight), T)
  {
    var order := DealtOrder(files, m, weight, locale);
    GrahamOnBin(order, m, weight, b, Dealt(files, m, weight, locale)[b], other, T);
  }

  lemma GrahamOnBin(order: seq<string>, m: nat, weight: string -> real, b: nat, bin: seq<string>,
                    other: seq<seq<string>>, T: real)
    requires b < m && NonNegative(Weights(order, weight)) && HeaviestFirst(Weights(order, weight))
    requires bin == FilesOf(order, Greedy(Weights(order, weight), m), b)
    requires |other| == m && Union(other) == multiset(order)
    requires forall c :: 0 <= c < m ==> Weight(other[c], weight) <= T
    ensures WithinGraham(m, Weight(bin, weight), T)
  {
    var o := ScheduleOf(order, other, weight);
    GrahamOnOrder(order, m, weight, b, o, other, T);
  }

  lemma GrahamOnOrder(order: seq<string>, m: nat, weight: string -> real, b: nat, o: seq<nat>,
                      other: seq<seq<string>>, T: real)
    requires b < m && NonNegative(Weights(order, weight)) && HeaviestFirst(Weights(order, weight))
    requires IsSchedule(o, |order|, m) && |other| == m
    requires forall c :: 0 <= c < m ==> Load(Weights(order, weight), o, c) == Weight(other[c], weight)
    requires forall c :: 0 <= c < m ==> Weight(other[c], weight) <= T
    ensures WithinGraham(m, Weight(FilesOf(order, Greedy(Weights(order, weight), m), b), weight), T)
  {
    var ws := Weights(order, weight);
    GreedyIsListSchedule(ws, m);
    GrahamBin(ws, Greedy(ws, m), m, b, o, T);
    BinWeight(order, Greedy(ws, m), b, weight);
  }

  lemma DealtOrder(files: seq<string>, m: nat, weight: string -> real, locale: Order)
    returns (order: seq<string>)
    requires m >= 1 && StrictTotalOrder(locale) && forall f :: weight(f) >= 0.0
    ensures multiset(order) == multiset(files)
    ensures NonNegative(Weights(order, weight)) && HeaviestFirst(Weights(order, weight))
    ensures forall b :: 0 <= b < m ==>
      Dealt(files, m, weight, locale)[b] == FilesOf(order, Greedy(Weights(order, weight), m), b)
  {
    var less := Heavier(weight, locale);
    order := Sort(less, files);
    HeavierIsTotal(weight, locale);
    SortSorts(less, files);
    forall i, j | 0 <= i < j < |order| ensures weight(order[i]) >= weight(order[j]) {
      assert !less(order[j], order[i]);
    }
  }

  /** Two bins never differ by more than the heaviest file. */
  lemma DealtSpread(files: seq<string>, m: nat, weight: string -> real, locale: Order, b: nat, c: nat, heaviest: real)
    requires b < m && c < m && StrictTotalOrder(locale)
    requires forall f :: weight(f) >= 0.0
    requires heaviest >= 0.0 && forall f :: f in files ==> weight(f) <= heaviest
    ensures var bins := Dealt(files, m, weight, locale);
            Weight(bins[b], weight) - Weight(bins[c], weight) <= heaviest
  {
    var order := DealtOrder(files, m, weight, locale);
    var ws := Weights(order, weight);
    forall i | 0 <= i < |ws| ensures ws[i] <= heaviest {
      assert order[i] in multiset(order);
      assert order[i] in files;
    }
    GreedyIsListSchedule(ws, m);
    Spread(ws, Greedy(ws, m), m, heaviest, b, c);
    BinWeight(order, Greedy(ws, m), b, weight);
    BinWeight(order, Greedy(ws, m), c, weight);
  }

  // ---------- one run: the slice of this machine, then its processes ----------

  /** `--partition=I/K`, as the argument parser admits it. */
  datatype Slice = Slice(index: nat, count: nat)

  datatype Options = Options(partition: Option<Slice>, requested: Option<int>, tier0: bool, cores: int)

  predicate Parsed(o: Options) {
    o.partition.Some? ==> 1 <= o.partition.value.index <= o.partition.value.count
  }

  datatype Run =
    | NoFiles
    | Refused      // several processes asked for outside tier 0
    | DealFails    // a process count below one, from the environment
    | Processes(shards: seq<seq<string>>, exclusive: seq<string>)

  function Min(x: int, y: int): int { if x <= y then x else y }

  function ShardCount(selected: nat, o: Options): int {
    var fallback := if Min(8, o.cores - 2) < 1 then 1 else Min(8, o.cores - 2);
    Min(selected,
        if o.partition.Some? || !o.tier0 then 1
        else if o.requested.Some? then o.requested.value else fallback)
  }

  function Filter(keep: string -> bool, files: seq<string>): seq<string> {
    if files == [] then []
    else
      var n := |files| - 1;
      Filter(keep, files[..n]) + if keep(files[n]) then [files[n]] else []
  }

  /** The bins that hold something, each in path order. */
  function PathOrdered(bins: seq<seq<string>>, byPath: Order): seq<seq<string>> {
    if bins == [] then []
    else
      var n := |bins| - 1;
      PathOrdered(bins[..n], byPath) + if bins[n] == [] then [] else [Sort(byPath, bins[n])]
  }

  function Selected(files: seq<string>, o: Options, size: string -> real, locale: Order): seq<string>
    requires Parsed(o)
  {
    if o.partition.None? then files
    else Dealt(files, o.partition.value.count, size, locale)[o.partition.value.index - 1]
  }

  function Exclusive(selected: seq<string>, o: Options, marked: string -> bool): seq<string> {
    if ShardCount(|selected|, o) > 1 then Filter(marked, selected) else []
  }

  function Shared(selected: seq<string>, exclusive: seq<string>): seq<string> {
    Filter(f => f !in exclusive, selected)
  }

  function Planned(files: seq<string>, o: Options, size: string -> real, duration: string -> real,
                   marked: string -> bool, locale: Order, byPath: Order): Run
    requires Parsed(o)
  {
    if files == [] then NoFiles
    else if !o.tier0 && o.requested.Some? && o.requested.value > 1 then Refused
    else Shards(Selected(files, o, size, locale), o, duration, marked, locale, byPath)
  }

  /** The processes a selection is split over, and the process of its own for the exclusive files. */
  function Shards(selected: seq<string>, o: Options, duration: string -> real,
                  marked: string -> bool, locale: Order, byPath: Order): Run
  {
    var count := ShardCount(|selected|, o);
    var exclusive := Exclusive(selected, o, marked);
    var shared := Shared(selected, exclusive);
    if count <= 0 && shared != [] then DealFails
    else
      Processes(PathOrdered(Dealt(shared, if count < 0 then 0 else count, duration, locale), byPath), exclusive)
  }

  method CollectExclusive(selected: seq<string>, marked: string -> bool) returns (exclusive: seq<string>)
    ensures exclusive == Filter(marked, selected)
  {
    exclusive := [];
    for i := 0 to |selected|
      invariant exclusive == Filter(marked, selected[..i])
    {
      assert selected[..i + 1][..i] == selected[..i];
      if marked(selected[i]) { exclusive := exclusive + [selected[i]]; }
    }
    assert selected[..|selected|] == selected;
  }

  method Plan(files: seq<string>, o: Options, size: string -> real, duration: string -> real,
              marked: string -> bool, locale: Order, byPath: Order) returns (r: Run)
    requires Parsed(o)
    ensures r == Planned(files, o, size, duration, marked, locale, byPath)
  {
    if files == [] { return NoFiles; }
    var selected := files;
    if o.partition.Some? {
      var slices := Deal(files, o.partition.value.count, size, locale);
      selected := slices.value[o.partition.value.index - 1];
    }
    if !o.tier0 && o.requested.Some? && o.requested.value > 1 { return Refused; }
    assert selected == Selected(files, o, size, locale);
    r := PlanShards(selected, o, duration, marked, locale, byPath);
  }

  method PlanShards(selected: seq<string>, o: Options, duration: string -> real,
                    marked: string -> bool, locale: Order, byPath: Order) returns (r: Run)
    ensures r == Shards(selected, o, duration, marked, locale, byPath)
  {
    var count := ShardCount(|selected|, o);
    var exclusive := [];
    if count > 1 { exclusive := CollectExclusive(selected, marked); }
    var dealt := Deal(Shared(selected, exclusive), count, duration, locale);
    if dealt.None? { return DealFails; }
    r := Processes(PathOrdered(dealt.value, byPath), exclusive);
  }

  /** Every file some process of the run executes, as often as it does. */
  function Ran(r: Run): multiset<string> {
    if r.Processes? then Union(r.shards) + multiset(r.exclusive) else multiset{}
  }

  lemma UnionSnoc<T>(bins: seq<seq<T>>, bin: seq<T>)
    ensures Union(bins + [bin]) == Union(bins) + multiset(bin)
  {
    assert (bins + [bin])[..|bins|] == bins;
  }

  lemma {:induction false} PathOrderedCovers(bins: seq<seq<string>>, byPath: Order)
    requires StrictTotalOrder(byPath)
    ensures Union(PathOrdered(bins, byPath)) == Union(bins)
  {
    if bins != [] {
      var n := |bins| - 1;
      PathOrderedCovers(bins[..n], byPath);
      var before := PathOrdered(bins[..n], byPath);
      if bins[n] == [] {
        assert before + [] == before;
      } else {
        SortSorts(byPath, bins[n]);
        UnionSnoc(before, Sort(byPath, bins[n]));
        assert PathOrdered(bins, byPath) == before + [Sort(byPath, bins[n])];
      }
    }
  }

  lemma {:induction false} PathOrderedSorts(bins: seq<seq<string>>, byPath: Order)
    requires StrictTotalOrder(byPath)
    ensures forall p :: p in PathOrdered(bins, byPath) ==> p != [] && Sorted(byPath, p)
  {
    if bins != [] {
      var n := |bins| - 1;
      PathOrderedSorts(bins[..n], byPath);
      SortSorts(byPath, bins[n]);
      SortLength(byPath, bins[n]);
    }
  }

  lemma {:induction false} FilterMembers(keep: string -> bool, files: seq<string>)
    ensures forall f :: f in Filter(keep, files) <==> f in files && keep(f)
  {
    if files != [] {
      var n := |files| - 1;
      FilterMembers(keep, files[..n]);
      assert files == files[..n] + [files[n]];
    }
  }

  lemma {:induction false} FilterCovers(keep: string -> bool, drop: string -> bool, files: seq<string>)
    requires forall f :: f in files ==> keep(f) != drop(f)
    ensures multiset(Filter(keep, files)) + multiset(Filter(drop, files)) == multiset(files)
  {
    if files != [] {
      var n := |files| - 1;
      FilterCovers(keep, drop, files[..n]);
      MultisetLast(files);
    }
  }

  lemma {:induction false} FilterNone(keep: string -> bool, files: seq<string>)
    requires forall f :: f in files ==> !keep(f)
    ensures Filter(keep, files) == []
  {
    if files != [] { FilterNone(keep, files[..|files| - 1]); }
  }

  lemma ExclusiveCovers(selected: seq<string>, o: Options, marked: string -> bool)
    ensures var exclusive := Exclusive(selected, o, marked);
            multiset(exclusive) + multiset(Shared(selected, exclusive)) == multiset(selected)
  {
    var exclusive := Exclusive(selected, o, marked);
    if ShardCount(|selected|, o) > 1 {
      FilterMembers(marked, selected);
      FilterCovers(marked, f => f !in exclusive, selected);
    } else {
      var never: string -> bool := f => false;
      FilterNone(never, selected);
      FilterCovers(never, f => f !in exclusive, selected);
    }
  }

  /** A run that starts its processes executes each file it selected exactly once. */
  lemma RunCoversSelected(files: seq<string>, o: Options, size: string -> real, duration: string -> real,
                          marked: string -> bool, locale: Order, byPath: Order)
    requires Parsed(o) && StrictTotalOrder(locale) && StrictTotalOrder(byPath)
    requires Planned(files, o, size, duration, marked, locale, byPath).Processes?
    ensures Ran(Planned(files, o, size, duration, marked, locale, byPath))
            == multiset(Selected(files, o, size, locale))
  {
    var selected := Selected(files, o, size, locale);
    var count := ShardCount(|selected|, o);
    var shared := Shared(selected, Exclusive(selected, o, marked));
    ExclusiveCovers(selected, o, marked);
    if count >= 1 {
      DealtCovers(shared, count, duration, locale);
      PathOrderedCovers(Dealt(shared, count, duration, locale), byPath);
    }
  }

  /** With several processes, a file that changes the checkout shares none of them with other files. */
  lemma ExclusiveAlone(files: seq<string>, o: Options, size: string -> real, duration: string -> real,
                       marked: string -> bool, locale: Order, byPath: Order, f: string, p: seq<string>)
    requires Parsed(o) && StrictTotalOrder(locale) && StrictTotalOrder(byPath)
    requires var r := Planned(files, o, size, duration, marked, locale, byPath);
             r.Processes? && p in r.shards && f in p
    ensures Sorted(byPath, p)
    ensures ShardCount(|Selected(files, o, size, locale)|, o) > 1 ==> !marked(f)
  {
    var selected := Selected(files, o, size, locale);
    var count := ShardCount(|selected|, o);
    var exclusive := Exclusive(selected, o, marked);
    var shared := Shared(selected, exclusive);
    var m := if count < 0 then 0 else count;
    var shards := PathOrdered(Dealt(shared, m, duration, locale), byPath);
    PathOrderedSorts(Dealt(shared, m, duration, locale), byPath);
    if count > 1 {
      SharedFile(shared, m, duration, locale, byPath, f, p);
      FilterMembers(x => x !in exclusive, selected);
      FilterMembers(marked, selected);
    }
  }

  lemma SharedFile(shared: seq<string>, m: nat, duration: string -> real, locale: Order, byPath: Order,
                   f: string, p: seq<string>)
    requires m >= 1 && StrictTotalOrder(locale) && StrictTotalOrder(byPath)
    requires p in PathOrdered(Dealt(shared, m, duration, locale), byPath) && f in p
    ensures f in shared
  {
    var bins := Dealt(shared, m, duration, locale);
    var shards := PathOrdered(bins, byPath);
    var b :| 0 <= b < |shards| && shards[b] == p;
    var k :| 0 <= k < |p| && p[k] == f;
    MemberOfUnion(shards, b, k);
    PathOrderedCovers(bins, byPath);
    DealtCovers(shared, m, duration, locale);
    assert f in multiset(shared);
  }

  /** What the machines 1 to `k` execute, machine `j` executing `runs(j)`. */
  function RanByMachines(k: nat, runs: nat -> multiset<string>): multiset<string> {
    if k == 0 then multiset{} else RanByMachines(k - 1, runs) + runs(k)
  }

  /** Machine `k` of `count`, given the options every machine is given. */
  function Machine(count: nat, files: seq<string>, o: Options, size: string -> real, duration: string -> real,
                   marked: string -> bool, locale: Order, byPath: Order): nat -> multiset<string> {
    (k: nat) =>
      if 1 <= k <= count
      then Ran(Planned(files, o.(partition := Some(Slice(k, count))), size, duration, marked, locale, byPath))
      else multiset{}
  }

  lemma {:induction false} MachinesCoverSlices(k: nat, runs: nat -> multiset<string>, slices: seq<seq<string>>)
    requires k <= |slices| && forall j :: 1 <= j <= |slices| ==> runs(j) == multiset(slices[j - 1])
    ensures RanByMachines(k, runs) == Union(slices[..k])
  {
    if k > 0 {
      assert slices[..k][..k - 1] == slices[..k - 1];
      MachinesCoverSlices(k - 1, runs, slices);
    }
  }

  lemma MachinesCover(runs: nat -> multiset<string>, slices: seq<seq<string>>, files: seq<string>)
    requires forall j :: 1 <= j <= |slices| ==> runs(j) == multiset(slices[j - 1])
    requires Union(slices) == multiset(files)
    ensures RanByMachines(|slices|, runs) == multiset(files)
  {
    MachinesCoverSlices(|slices|, runs, slices);
    assert slices[..|slices|] == slices;
  }

  lemma RunsItsSlice(files: seq<string>, mine: Options, size: string -> real, duration: string -> real,
                     marked: string -> bool, locale: Order, byPath: Order, slice: seq<string>)
    requires Parsed(mine) && mine.partition.Some? && files != []
    requires StrictTotalOrder(locale) && StrictTotalOrder(byPath)
    requires mine.tier0 || mine.requested.None? || mine.requested.value <= 1
    requires slice == Selected(files, mine, size, locale)
    ensures Ran(Planned(files, mine, size, duration, marked, locale, byPath)) == multiset(slice)
  {
    SliceIsProcessed(files, mine, size, duration, marked, locale, byPath);
    RunCoversSelected(files, mine, size, duration, marked, locale, byPath);
  }

  lemma SliceIsProcessed(files: seq<string>, mine: Options, size: string -> real, duration: string -> real,
                         marked: string -> bool, locale: Order, byPath: Order)
    requires Parsed(mine) && mine.partition.Some? && files != []
    requires mine.tier0 || mine.requested.None? || mine.requested.value <= 1
    ensures Planned(files, mine, size, duration, marked, locale, byPath).Processes?
  {
    var selected := Selected(files, mine, size, locale);
    assert ShardCount(|selected|, mine) == if selected == [] then 0 else 1;
    assert selected == [] ==> Shared(selected, []) == [];
  }

  lemma MachineRunsSlice(j: nat, count: nat, files: seq<string>, o: Options, size: string -> real,
                         duration: string -> real, marked: string -> bool, locale: Order, byPath: Order)
    requires 1 <= j <= count && StrictTotalOrder(locale) && StrictTotalOrder(byPath)
    requires files != [] && (o.tier0 || o.requested.None? || o.requested.value <= 1)
    ensures Machine(count, files, o, size, duration, marked, locale, byPath)(j)
            == multiset(Dealt(files, count, size, locale)[j - 1])
  {
    var mine := o.(partition := Some(Slice(j, count)));
    var slice := Dealt(files, count, size, locale)[j - 1];
    assert slice == Selected(files, mine, size, locale);
    RunsItsSlice(files, mine, size, duration, marked, locale, byPath, slice);
  }

  /** `--partition=1/K` to `K/K`, one machine each, execute every collected file exactly once. */
  lemma PartitionsCoverOnce(count: nat, files: seq<string>, o: Options, size: string -> real,
                            duration: string -> real, marked: string -> bool, locale: Order, byPath: Order)
    requires count >= 1 && StrictTotalOrder(locale) && StrictTotalOrder(byPath)
    requires files != [] && (o.tier0 || o.requested.None? || o.requested.value <= 1)
    ensures RanByMachines(count, Machine(count, files, o, size, duration, marked, locale, byPath)) == multiset(files)
  {
    var slices := Dealt(files, count, size, locale);
    var runs := Machine(count, files, o, size, duration, marked, locale, byPath);
    forall j: nat | 1 <= j <= count ensures runs(j) == multiset(slices[j - 1]) {
      MachineRunsSlice(j, count, files, o, size, duration, marked, locale, byPath);
    }
    DealtCovers(files, count, size, locale);
    MachinesCover(runs, slices, files);
  }
}
