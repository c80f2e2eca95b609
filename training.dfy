/**
 * The training of the part-of-speech tagger (ps5-hmm-viterbi/Training.java),
 * over lines already read and split into tokens.
 *
 * Counts are reals, like the source's doubles, and build the tables Viterbi
 * decodes with. The outer maps are Dafny maps (each key is handled on its own,
 * so HashMap order does not matter); the inner maps are insertion-ordered.
 * Math.log is the parameter log.
 */
module Training {
  import opened Wrappers
  import opened OrderedMaps
  import opened Viterbi

  /** The only way training fails: obs.get(i) past the end of the observations. */
  datatype TrainingError = IndexOutOfBounds

  // ---------------------------------------------------------------------------
  // Counting
  // ---------------------------------------------------------------------------

  /** One more occurrence of b after a: 1.0 for a new pair, the old count + 1 otherwise. */
  function Bump(m: Table, a: string, b: string): Table
  {
    var inner := if a in m then m[a] else [];
    m[a := Put(inner, b, Incremented(Get(inner, b)))]
  }

  /** The count after one more occurrence, given the count so far (null for none). */
  function Incremented(c: Option<real>): real
  {
    match c
    case None => 1.0
    case Some(n) => n + 1.0
  }

  /** The count table of a sequence of pairs, counted in order. */
  function BumpAll(ps: seq<(string, string)>): Table
  {
    if ps == [] then map[] else Bump(BumpAll(ps[..|ps| - 1]), ps[|ps| - 1].0, ps[|ps| - 1].1)
  }

  /** The adjacent pairs of one token line. */
  function LinePairs(arr: seq<string>): (ps: seq<(string, string)>)
    ensures |ps| == if |arr| <= 1 then 0 else |arr| - 1
  {
    if |arr| <= 1 then [] else LinePairs(arr[..|arr| - 1]) + [(arr[|arr| - 2], arr[|arr| - 1])]
  }

  /** The transitions buildTProb counts: the adjacent pairs of every tag line
      with the sentinel put in front. */
  function Pairs(lines: seq<seq<string>>): seq<(string, string)>
  {
    if lines == [] then []
    else Pairs(lines[..|lines| - 1]) + LinePairs([Start] + lines[|lines| - 1])
  }

  /** All tokens of all lines, in order. */
  function Flatten(lines: seq<seq<string>>): seq<string>
  {
    if lines == [] then [] else Flatten(lines[..|lines| - 1]) + lines[|lines| - 1]
  }

  /** The tokens with the case-fold applied to each. */
  function LowerAll(ws: seq<string>, lower: string -> string): (r: seq<string>)
    ensures |r| == |ws| && forall i :: 0 <= i < |ws| ==> r[i] == lower(ws[i])
  {
    seq(|ws|, i requires 0 <= i < |ws| => lower(ws[i]))
  }

  /** The (state, observation) pairs buildOProb counts: position by position. */
  function Aligned(st: seq<string>, obs: seq<string>): seq<(string, string)>
    requires |st| <= |obs|
  {
    seq(|st|, i requires 0 <= i < |st| => (st[i], obs[i]))
  }

  // ---------------------------------------------------------------------------
  // Normalising
  // ---------------------------------------------------------------------------

  /** Every count of every inner map is positive (every count table has this). */
  predicate Positive(m: Table)
  {
    forall k :: k in m ==> forall j :: 0 <= j < |m[k]| ==> m[k][j].1 > 0.0
  }

  /** The inner map with each count divided by the sum of all counts. */
  function Ratios(inner: OrderedMap<string, real>): (r: OrderedMap<string, real>)
    requires forall j :: 0 <= j < |inner| ==> inner[j].1 > 0.0
    ensures |r| == |inner|
    ensures inner != [] ==> SumValues(inner) > 0.0
    ensures forall j :: 0 <= j < |inner| ==> r[j] == (inner[j].0, inner[j].1 / SumValues(inner))
  {
    SumPositive(inner);
    seq(|inner|, j requires 0 <= j < |inner| => (inner[j].0, inner[j].1 / SumValues(inner)))
  }

  /** What makeLog makes of a count table: log of each ratio, keys kept. */
  function LogTable(m: Table, log: real -> real): Table
    requires Positive(m)
  {
    map k | k in m :: Apply(Ratios(m[k]), log)
  }

  /** The map with log applied to each value. */
  function Apply(r: OrderedMap<string, real>, log: real -> real): OrderedMap<string, real>
  {
    seq(|r|, j requires 0 <= j < |r| => (r[j].0, log(r[j].1)))
  }

  lemma {:induction false} SumPositive(inner: OrderedMap<string, real>)
    requires forall j :: 0 <= j < |inner| ==> inner[j].1 > 0.0
    ensures inner != [] ==> SumValues(inner) > 0.0
    ensures inner == [] ==> SumValues(inner) == 0.0
  {
    if inner != [] {
      SumPositive(inner[..|inner| - 1]);
    }
  }

  // ---------------------------------------------------------------------------
  // The methods, as the source writes them
  // ---------------------------------------------------------------------------

  /** The counting loops of buildTProb: "#" is put in front of each line and
      each adjacent pair is counted; every tag after the sentinel is also
      appended to the list of states. */
  method CountTransitions(lines: seq<seq<string>>) returns (rmap: Table, added: seq<string>)
    ensures rmap == BumpAll(Pairs(lines))
    ensures added == Flatten(lines)
  {
    rmap := map[];
    added := [];
    ghost var done: seq<(string, string)> := [];
    var l := 0;
    while l < |lines|
      invariant 0 <= l <= |lines|
      invariant done == Pairs(lines[..l]) && rmap == BumpAll(done)
      invariant added == Flatten(lines[..l])
    {
      var arr := [Start] + lines[l];
      var tags;
      rmap, tags := CountLine(rmap, arr, done);
      LinesSnoc(lines, l);
      assert arr[1..] == lines[l];
      added := added + tags;
      done := done + LinePairs(arr);
      l := l + 1;
    }
    assert lines[..l] == lines;
  }

  /** Taking one more line extends the pairs and the tokens by that line's. */
  lemma LinesSnoc(lines: seq<seq<string>>, l: nat)
    requires l < |lines|
    ensures Pairs(lines[..l + 1]) == Pairs(lines[..l]) + LinePairs([Start] + lines[l])
    ensures Flatten(lines[..l + 1]) == Flatten(lines[..l]) + lines[l]
  {
    assert lines[..l + 1][..l] == lines[..l];
  }

  /** The inner loop of buildTProb over one line with the sentinel in front:
      count each adjacent pair and collect the tags after the sentinel (the
      i != 0 guard always holds, since i starts at 1). */
  method CountLine(rmap: Table, arr: seq<string>, ghost done: seq<(string, string)>)
    returns (r: Table, tags: seq<string>)
    requires |arr| >= 1 && rmap == BumpAll(done)
    ensures r == BumpAll(done + LinePairs(arr))
    ensures tags == arr[1..]
  {
    r := rmap;
    tags := [];
    var i := 1;
    ghost var all := done;
    assert done + LinePairs(arr[..1]) == done;
    while i < |arr|
      invariant LineScanned(tags, all, arr, done, i) && r == BumpAll(all)
      decreases |arr| - i
    {
      r, tags, all := CountLineStep(r, tags, all, arr, done, i);
      i := i + 1;
    }
    LineScannedEnd(tags, all, arr, done);
  }

  /** One pass of buildTProb's inner loop: count the pair ending at token i and
      collect token i (the i != 0 guard always holds, since i starts at 1). */
  method CountLineStep(rmap: Table, tags: seq<string>, ghost all: seq<(string, string)>,
                       arr: seq<string>, ghost done: seq<(string, string)>, i: nat)
    returns (r: Table, tags': seq<string>, ghost all': seq<(string, string)>)
    requires i < |arr| && LineScanned(tags, all, arr, done, i) && rmap == BumpAll(all)
    ensures LineScanned(tags', all', arr, done, i + 1) && r == BumpAll(all')
  {
    var current, next := arr[i - 1], arr[i];
    tags' := tags;
    if i != 0 {
      tags' := tags' + [arr[i]];
    }
    r, all' := CountNext(rmap, current, next, all);
    LineScannedStep(tags, all, arr, done, i);
  }

  /** The pairs counted and the tags collected after the first i tokens of a line. */
  ghost predicate LineScanned(tags: seq<string>, all: seq<(string, string)>,
                              arr: seq<string>, done: seq<(string, string)>, i: nat)
  {
    1 <= i <= |arr| && all == done + LinePairs(arr[..i]) && tags == arr[1..i]
  }

  lemma LineScannedStep(tags: seq<string>, all: seq<(string, string)>,
                        arr: seq<string>, done: seq<(string, string)>, i: nat)
    requires i < |arr| && LineScanned(tags, all, arr, done, i)
    ensures LineScanned(tags + [arr[i]], all + [(arr[i - 1], arr[i])], arr, done, i + 1)
  {
    LinePairsSnoc(arr, i);
    SliceSnoc(arr, 1, i);
  }

  lemma LineScannedEnd(tags: seq<string>, all: seq<(string, string)>,
                       arr: seq<string>, done: seq<(string, string)>)
    requires LineScanned(tags, all, arr, done, |arr|)
    ensures all == done + LinePairs(arr) && tags == arr[1..]
  {
    assert arr[..|arr|] == arr;
  }

  lemma {:induction false} LinePairsSnoc(arr: seq<string>, i: nat)
    requires 1 <= i < |arr|
    ensures LinePairs(arr[..i + 1]) == LinePairs(arr[..i]) + [(arr[i - 1], arr[i])]
  {
    assert arr[..i + 1][..i] == arr[..i];
  }

  lemma {:induction false} SliceSnoc(s: seq<string>, lo: nat, hi: nat)
    requires lo <= hi < |s|
    ensures s[lo..hi + 1] == s[lo..hi] + [s[hi]]
  {
  }

  /** One count update, as a step of counting the pairs seen so far. */
  method CountNext(rmap: Table, current: string, next: string, ghost seen: seq<(string, string)>)
    returns (r: Table, ghost seen': seq<(string, string)>)
    requires rmap == BumpAll(seen)
    ensures seen' == seen + [(current, next)] && r == BumpAll(seen')
  {
    r := CountPair(rmap, current, next);
    BumpAllSnoc(seen, (current, next));
    seen' := seen + [(current, next)];
  }

  /** The count update of both counting loops: start at 1.0 or add one. */
  method CountPair(rmap: Table, current: string, next: string) returns (r: Table)
    ensures r == Bump(rmap, current, next)
  {
    var tCount: OrderedMap<string, real> := [];
    if current in rmap {
      tCount := rmap[current];
    }
    ghost var before := tCount;
    var c := Get(tCount, next);
    if c.None? {
      assert Incremented(c) == 1.0;
      tCount := Put(tCount, next, 1.0);
    } else {
      assert Incremented(c) == c.value + 1.0;
      tCount := Put(tCount, next, c.value + 1.0);
    }
    r := rmap[current := tCount];
  }

  /** The summing loop and the overwriting loop of makeLog for one inner map:
      each count v becomes log(v / sum), in place, keys and order kept. */
  method NormaliseInner(innerMap: OrderedMap<string, real>, log: real -> real)
    returns (r: OrderedMap<string, real>)
    requires forall j :: 0 <= j < |innerMap| ==> innerMap[j].1 > 0.0
    ensures r == Apply(Ratios(innerMap), log)
  {
    var sum := 0.0;
    var j := 0;
    while j < |innerMap|
      invariant 0 <= j <= |innerMap|
      invariant sum == SumValues(innerMap[..j])
    {
      assert innerMap[..j + 1][..j] == innerMap[..j];
      sum := sum + innerMap[j].1;
      j := j + 1;
    }
    assert innerMap[..j] == innerMap;
    SumPositive(innerMap);
    var target := Apply(Ratios(innerMap), log);
    r := innerMap;
    j := 0;
    while j < |r|
      invariant 0 <= j <= |r| == |innerMap|
      invariant r[..j] == target[..j] && r[j..] == innerMap[j..]
    {
      var v := r[j].1;
      r := r[j := (r[j].0, log(v / sum))];
      j := j + 1;
    }
    assert r == r[..j];
  }

  /** makeLog: normalise every inner map, one outer key at a time. */
  method MakeLog(probMap: Table, log: real -> real) returns (rmap: Table)
    requires Positive(probMap)
    ensures rmap == LogTable(probMap, log)
  {
    rmap := map[];
    var todo := probMap.Keys;
    while todo != {}
      invariant todo <= probMap.Keys
      invariant rmap.Keys == probMap.Keys - todo
      invariant forall k :: k in rmap ==> rmap[k] == Apply(Ratios(probMap[k]), log)
      decreases todo
    {
      var k :| k in todo;
      var innerMap := NormaliseInner(probMap[k], log);
      rmap := rmap[k := innerMap];
      todo := todo - {k};
    }
  }

  /** buildOProb: count each state with the observation at the same position.
      obs.get(i) throws once i reaches the end of the observations. */
  method BuildOProb(st: seq<string>, obs: seq<string>, log: real -> real)
    returns (r: Result<Table, TrainingError>)
    ensures r.Failure? <==> |st| > |obs|
    ensures r.Success? ==> Positive(BumpAll(Aligned(st, obs))) && r.value == LogTable(BumpAll(Aligned(st, obs)), log)
  {
    var rmap: Table := map[];
    var i := 0;
    ghost var done: seq<(string, string)> := [];
    while i < |st|
      invariant 0 <= i <= |st|
      invariant i <= |obs| && done == Aligned(st[..i], obs) && rmap == BumpAll(done)
    {
      if i >= |obs| {
        return Failure(TrainingError.IndexOutOfBounds);
      }
      var currentSt, currentObs := st[i], obs[i];
      rmap := CountPair(rmap, currentSt, currentObs);
      BumpAllSnoc(done, (currentSt, currentObs));
      AlignedSnoc(st, obs, i);
      done := done + [(currentSt, currentObs)];
      i := i + 1;
    }
    assert st[..i] == st;
    BumpAllPositive(Aligned(st, obs));
    var logged := MakeLog(rmap, log);
    r := Success(logged);
  }

  lemma {:induction false} AlignedSnoc(st: seq<string>, obs: seq<string>, i: int)
    requires 0 <= i < |st| && i < |obs|
    ensures Aligned(st[..i + 1], obs) == Aligned(st[..i], obs) + [(st[i], obs[i])]
  {
    var a, b := Aligned(st[..i + 1], obs), Aligned(st[..i], obs) + [(st[i], obs[i])];
    assert |a| == |b|;
    forall k | 0 <= k < |a|
      ensures a[k] == b[k]
    {
      if k < i {
        assert a[k] == (st[k], obs[k]) == b[k];
      }
    }
  }

  lemma {:induction false} BumpAllSnoc(ps: seq<(string, string)>, p: (string, string))
    ensures BumpAll(ps + [p]) == Bump(BumpAll(ps), p.0, p.1)
  {
    assert (ps + [p])[..|ps|] == ps;
  }

  /** The tokenising loop of addToObservations: every token of every line,
      case-folded by lower, in order. */
  method AddToObservations(lines: seq<seq<string>>, lower: string -> string) returns (rlist: seq<string>)
    ensures rlist == LowerAll(Flatten(lines), lower)
  {
    rlist := [];
    var l := 0;
    while l < |lines|
      invariant 0 <= l <= |lines|
      invariant rlist == LowerAll(Flatten(lines[..l]), lower)
    {
      var arr := lines[l];
      var j := 0;
      while j < |arr|
        invariant 0 <= j <= |arr|
        invariant rlist == LowerAll(Flatten(lines[..l]) + arr[..j], lower)
      {
        assert Flatten(lines[..l]) + arr[..j + 1] == (Flatten(lines[..l]) + arr[..j]) + [arr[j]];
        rlist := rlist + [lower(arr[j])];
        j := j + 1;
      }
      assert lines[..l + 1][..l] == lines[..l] && arr[..j] == arr;
      l := l + 1;
    }
    assert lines[..l] == lines;
  }

  /** The trained tables with the lists they are built from. */
  class Training {
    var states: seq<string>
    var observations: seq<string>
    var tProb: Table
    var oProb: Table

    /** The first two steps of the constructor: no states yet, and the
        observations of the sentence lines. */
    constructor Init(sentenceLines: seq<seq<string>>, lower: string -> string)
      ensures states == [] && observations == LowerAll(Flatten(sentenceLines), lower)
      ensures tProb == map[] && oProb == map[]
    {
      states := [];
      var obs := AddToObservations(sentenceLines, lower);
      observations := obs;
      tProb, oProb := map[], map[];
    }

    /** buildTProb: count the transitions of the tag lines, appending their
        tags to states, and normalise the counts. */
    method BuildTProb(tagLines: seq<seq<string>>, log: real -> real) returns (rmap: Table)
      modifies this
      ensures states == old(states) + Flatten(tagLines)
      ensures observations == old(observations) && tProb == old(tProb) && oProb == old(oProb)
      ensures Positive(BumpAll(Pairs(tagLines))) && rmap == LogTable(BumpAll(Pairs(tagLines)), log)
    {
      var counts, added := CountTransitions(tagLines);
      states := states + added;
      BumpAllPositive(Pairs(tagLines));
      rmap := MakeLog(counts, log);
    }
  }

  /** The constructor of Training: read the observations, build tProb (which
      fills states) and then oProb from states and observations; the last
      step throws when there are more tags than observations. */
  method Train(tagLines: seq<seq<string>>, sentenceLines: seq<seq<string>>,
               lower: string -> string, log: real -> real)
    returns (r: Result<Training, TrainingError>)
    ensures r.Failure? <==> |Flatten(tagLines)| > |Flatten(sentenceLines)|
    ensures r.Success? ==>
      fresh(r.value) &&
      r.value.states == Flatten(tagLines) &&
      r.value.observations == LowerAll(Flatten(sentenceLines), lower) &&
      Positive(BumpAll(Pairs(tagLines))) &&
      r.value.tProb == LogTable(BumpAll(Pairs(tagLines)), log) &&
      |r.value.states| <= |r.value.observations| &&
      Positive(BumpAll(Aligned(r.value.states, r.value.observations))) &&
      r.value.oProb == LogTable(BumpAll(Aligned(r.value.states, r.value.observations)), log)
  {
    var t := new Training.Init(sentenceLines, lower);
    var tp := t.BuildTProb(tagLines, log);
    t.tProb := tp;
    var op := BuildOProb(t.states, t.observations, log);
    if op.Failure? {
      return Failure(op.error);
    }
    BumpAllPositive(Aligned(t.states, t.observations));
    t.oProb := op.value;
    r := Success(t);
  }

  /** Counting only ever stores 1.0 or an old count plus one. */
  lemma {:induction false} BumpAllPositive(ps: seq<(string, string)>)
    ensures Positive(BumpAll(ps))
  {
    if ps != [] {
      var m := BumpAll(ps[..|ps| - 1]);
      BumpAllPositive(ps[..|ps| - 1]);
      BumpPositive(m, ps[|ps| - 1].0, ps[|ps| - 1].1);
    }
  }

  lemma {:induction false} BumpPositive(m: Table, a: string, b: string)
    requires Positive(m)
    ensures Positive(Bump(m, a, b))
  {
    var inner := if a in m then m[a] else [];
    var v := Incremented(Get(inner, b));
    assert v > 0.0;
    PutEntries(inner, b, v);
    var r := Put(inner, b, v);
    assert forall j :: 0 <= j < |r| ==> r[j].1 > 0.0;
    assert Bump(m, a, b) == m[a := r];
  }
}
