/**
 * What the trained tables mean: a count table holds, for each pair, the
 * number of times it occurs; the transitions counted are exactly those of
 * the tag lines with the sentinel in front; and after normalising, the
 * ratios behind each inner map are probabilities that sum to one.
 */
module TrainingProperties {
  import opened Wrappers
  import opened OrderedMaps
  import opened Viterbi
  import opened Training

  // ---------------------------------------------------------------------------
  // Counting
  // ---------------------------------------------------------------------------

  /** The count a table records for b after a, 0 when there is none. */
  function CountOf(m: Table, a: string, b: string): real
  {
    if a in m then
      match Get(m[a], b)
      case None => 0.0
      case Some(c) => c
    else 0.0
  }

  /** One more occurrence adds one to exactly one count. */
  lemma {:induction false} BumpCount(m: Table, a: string, b: string, a': string, b': string)
    ensures CountOf(Bump(m, a, b), a', b') == CountOf(m, a', b') + if a' == a && b' == b then 1.0 else 0.0
  {
  }

  /** Every count of a count table is the number of occurrences of its pair. */
  lemma {:induction false} BumpAllCounts(ps: seq<(string, string)>)
    ensures forall a, b :: CountOf(BumpAll(ps), a, b) == multiset(ps)[(a, b)] as real
  {
    if ps != [] {
      var q, p := ps[..|ps| - 1], ps[|ps| - 1];
      BumpAllCounts(q);
      assert ps == q + [p];
      forall a, b
        ensures CountOf(BumpAll(ps), a, b) == multiset(ps)[(a, b)] as real
      {
        BumpCount(BumpAll(q), p.0, p.1, a, b);
      }
    }
  }

  /** A count update adds its first component to the keys. */
  lemma BumpKeys(m: Table, a: string, b: string)
    ensures Bump(m, a, b).Keys == m.Keys + {a}
  {
  }

  /** The keys of a count table are the first components of the pairs. */
  lemma {:induction false} BumpAllKeys(ps: seq<(string, string)>, a: string)
    ensures a in BumpAll(ps) <==> exists i :: 0 <= i < |ps| && ps[i].0 == a
  {
    if ps != [] {
      var q, p := ps[..|ps| - 1], ps[|ps| - 1];
      BumpAllKeys(q, a);
      BumpKeys(BumpAll(q), p.0, p.1);
      if a in BumpAll(q) {
        var i :| 0 <= i < |q| && q[i].0 == a;
        assert ps[i] == q[i];
      } else if a == p.0 {
        assert ps[|q|].0 == a;
      } else {
        forall i | 0 <= i < |ps|
          ensures ps[i].0 != a
        {
          if i < |q| {
            assert ps[i] == q[i];
          } else {
            assert i == |q| && ps[i] == p;
          }
        }
      }
    }
  }

  /** An inner map of a count table: non-empty, distinct keys, counts at least one. */
  ghost predicate Counted(inner: OrderedMap<string, real>)
  {
    inner != [] && Distinct(inner) && forall j :: 0 <= j < |inner| ==> inner[j].1 >= 1.0
  }

  lemma {:induction false} BumpCounted(m: Table, a: string, b: string)
    requires forall k :: k in m ==> Counted(m[k])
    ensures forall k :: k in Bump(m, a, b) ==> Counted(Bump(m, a, b)[k])
  {
    var inner := if a in m then m[a] else [];
    var put := Put(inner, b, Incremented(Get(inner, b)));
    PutEntries(inner, b, Incremented(Get(inner, b)));
    assert Bump(m, a, b) == m[a := put];
    assert Get(put, b).Some?;
    assert Incremented(Get(inner, b)) >= 1.0;
    assert Counted(put);
  }

  /** Every inner map of a count table is non-empty, has distinct keys and
      holds counts of at least one. */
  lemma {:induction false} BumpAllCounted(ps: seq<(string, string)>)
    ensures forall a :: a in BumpAll(ps) ==> Counted(BumpAll(ps)[a])
  {
    if ps != [] {
      BumpAllCounted(ps[..|ps| - 1]);
      BumpCounted(BumpAll(ps[..|ps| - 1]), ps[|ps| - 1].0, ps[|ps| - 1].1);
    }
  }

  /** A table entry exists exactly for the pairs that occur. */
  lemma {:induction false} BumpAllEntries(ps: seq<(string, string)>, a: string, b: string)
    ensures (a in BumpAll(ps) && Get(BumpAll(ps)[a], b).Some?) <==> (a, b) in ps
  {
    BumpAllCounts(ps);
    BumpAllCounted(ps);
    var m := BumpAll(ps);
    assert CountOf(m, a, b) == multiset(ps)[(a, b)] as real;
    if a in m && Get(m[a], b).Some? {
      var i :| 0 <= i < |m[a]| && m[a][i] == (b, Get(m[a], b).value);
      assert m[a][i].1 >= 1.0;
    }
  }

  // ---------------------------------------------------------------------------
  // The transitions of the tag lines
  // ---------------------------------------------------------------------------

  /** The transition into token i of a tag line: from the sentinel for the first. */
  function TransitionOf(line: seq<string>, i: int): (string, string)
    requires 0 <= i < |line|
  {
    (if i == 0 then Start else line[i - 1], line[i])
  }

  /** The adjacent pairs of a line, position by position. */
  lemma {:induction false} LinePairsAt(arr: seq<string>)
    ensures forall i :: 0 <= i < |LinePairs(arr)| ==> LinePairs(arr)[i] == (arr[i], arr[i + 1])
  {
    if |arr| > 1 {
      LinePairsAt(arr[..|arr| - 1]);
      assert forall i :: 0 <= i < |arr| - 1 ==> arr[..|arr| - 1][i] == arr[i];
    }
  }

  /** Every counted pair is the transition into some token of some line. */
  lemma {:induction false} PairsSource(lines: seq<seq<string>>, k: int) returns (l: int, i: int)
    requires 0 <= k < |Pairs(lines)|
    ensures 0 <= l < |lines| && 0 <= i < |lines[l]| && Pairs(lines)[k] == TransitionOf(lines[l], i)
  {
    var pre, last := lines[..|lines| - 1], lines[|lines| - 1];
    var arr := [Start] + last;
    assert Pairs(lines) == Pairs(pre) + LinePairs(arr);
    if k < |Pairs(pre)| {
      l, i := PairsSource(pre, k);
      assert pre[l] == lines[l];
    } else {
      l, i := |lines| - 1, k - |Pairs(pre)|;
      LinePairsAt(arr);
      assert arr[i] == if i == 0 then Start else last[i - 1];
      assert arr[i + 1] == last[i];
    }
  }

  /** The transition into every token of every line is counted. */
  lemma {:induction false} PairsComplete(lines: seq<seq<string>>, l: int, i: int) returns (k: int)
    requires 0 <= l < |lines| && 0 <= i < |lines[l]|
    ensures 0 <= k < |Pairs(lines)| && Pairs(lines)[k] == TransitionOf(lines[l], i)
  {
    var pre, last := lines[..|lines| - 1], lines[|lines| - 1];
    var arr := [Start] + last;
    assert Pairs(lines) == Pairs(pre) + LinePairs(arr);
    if l < |lines| - 1 {
      assert pre[l] == lines[l];
      k := PairsComplete(pre, l, i);
    } else {
      k := |Pairs(pre)| + i;
      LinePairsAt(arr);
      assert arr[i] == if i == 0 then Start else last[i - 1];
      assert arr[i + 1] == last[i];
    }
  }

  /** A pair is counted iff it is the transition into some token of some line. */
  lemma {:induction false} PairsCharacterised(lines: seq<seq<string>>, p: (string, string))
    ensures p in Pairs(lines) <==>
      exists l, i :: 0 <= l < |lines| && 0 <= i < |lines[l]| && p == TransitionOf(lines[l], i)
  {
    if p in Pairs(lines) {
      var k :| 0 <= k < |Pairs(lines)| && Pairs(lines)[k] == p;
      var l, i := PairsSource(lines, k);
    }
    if exists l, i :: 0 <= l < |lines| && 0 <= i < |lines[l]| && p == TransitionOf(lines[l], i) {
      var l, i :| 0 <= l < |lines| && 0 <= i < |lines[l]| && p == TransitionOf(lines[l], i);
      var k := PairsComplete(lines, l, i);
    }
  }

  /** No tag line contains the sentinel. */
  predicate NoSentinel(lines: seq<seq<string>>)
  {
    forall l, i :: 0 <= l < |lines| && 0 <= i < |lines[l]| ==> lines[l][i] != Start
  }

  /** The sentinel is never the destination of a transition. */
  lemma {:induction false} SentinelNeverEntered(lines: seq<seq<string>>, a: string)
    requires NoSentinel(lines)
    ensures a in BumpAll(Pairs(lines)) ==> Get(BumpAll(Pairs(lines))[a], Start) == None
  {
    BumpAllEntries(Pairs(lines), a, Start);
    PairsCharacterised(lines, (a, Start));
  }

  /** The successors of the sentinel are exactly the first tags of the lines. */
  lemma {:induction false} SentinelSuccessors(lines: seq<seq<string>>, b: string)
    requires NoSentinel(lines)
    ensures (Start in BumpAll(Pairs(lines)) && Get(BumpAll(Pairs(lines))[Start], b).Some?) <==>
      exists l :: 0 <= l < |lines| && |lines[l]| > 0 && lines[l][0] == b
  {
    BumpAllEntries(Pairs(lines), Start, b);
    PairsCharacterised(lines, (Start, b));
    if exists l :: 0 <= l < |lines| && |lines[l]| > 0 && lines[l][0] == b {
      var l :| 0 <= l < |lines| && |lines[l]| > 0 && lines[l][0] == b;
      assert (Start, b) == TransitionOf(lines[l], 0);
    }
  }

  /** A tag has outgoing transitions iff it is the sentinel of a non-empty
      line or is followed by another tag on some line; a tag that only ever
      ends lines is not a key of the table. */
  lemma {:induction false} TransitionSources(lines: seq<seq<string>>, a: string)
    ensures a in BumpAll(Pairs(lines)) <==>
      (a == Start && exists l :: 0 <= l < |lines| && |lines[l]| > 0) ||
      (exists l, i :: 0 <= l < |lines| && 0 <= i < |lines[l]| - 1 && lines[l][i] == a)
  {
    KeySource(lines, a);
    StartKey(lines);
    TagKey(lines, a);
  }

  lemma KeySource(lines: seq<seq<string>>, a: string)
    ensures a in BumpAll(Pairs(lines)) ==>
      (a == Start && exists l :: 0 <= l < |lines| && |lines[l]| > 0) ||
      (exists l, i :: 0 <= l < |lines| && 0 <= i < |lines[l]| - 1 && lines[l][i] == a)
  {
    var ps := Pairs(lines);
    BumpAllKeys(ps, a);
    if a in BumpAll(ps) {
      var k :| 0 <= k < |ps| && ps[k].0 == a;
      var l, i := PairsSource(lines, k);
      if i > 0 {
        assert lines[l][i - 1] == a;
      }
    }
  }

  lemma StartKey(lines: seq<seq<string>>)
    ensures (exists l :: 0 <= l < |lines| && |lines[l]| > 0) ==> Start in BumpAll(Pairs(lines))
  {
    var ps := Pairs(lines);
    if exists l :: 0 <= l < |lines| && |lines[l]| > 0 {
      var l :| 0 <= l < |lines| && |lines[l]| > 0;
      var k := PairsComplete(lines, l, 0);
      assert ps[k] == (Start, lines[l][0]);
      BumpAllKeys(ps, Start);
    }
  }

  lemma TagKey(lines: seq<seq<string>>, a: string)
    ensures (exists l, i :: 0 <= l < |lines| && 0 <= i < |lines[l]| - 1 && lines[l][i] == a) ==>
      a in BumpAll(Pairs(lines))
  {
    var ps := Pairs(lines);
    if exists l, i :: 0 <= l < |lines| && 0 <= i < |lines[l]| - 1 && lines[l][i] == a {
      var l, i :| 0 <= l < |lines| && 0 <= i < |lines[l]| - 1 && lines[l][i] == a;
      var k := PairsComplete(lines, l, i + 1);
      assert ps[k] == (lines[l][i], lines[l][i + 1]);
      BumpAllKeys(ps, a);
    }
  }

  // ---------------------------------------------------------------------------
  // Normalising
  // ---------------------------------------------------------------------------

  /** Each value divided by d. */
  function Scaled(inner: OrderedMap<string, real>, d: real): OrderedMap<string, real>
    requires d > 0.0
  {
    seq(|inner|, j requires 0 <= j < |inner| => (inner[j].0, inner[j].1 / d))
  }

  lemma {:induction false} ScaledSum(inner: OrderedMap<string, real>, d: real)
    requires d > 0.0
    ensures SumValues(Scaled(inner, d)) == SumValues(inner) / d
  {
    if inner != [] {
      var n := |inner|;
      ScaledSum(inner[..n - 1], d);
      assert Scaled(inner, d)[..n - 1] == Scaled(inner[..n - 1], d);
      var s, x := SumValues(inner[..n - 1]), inner[n - 1].1;
      assert s / d + x / d == (s + x) / d;
    }
  }

  lemma {:induction false} ValueBelowSum(inner: OrderedMap<string, real>, j: int)
    requires forall i :: 0 <= i < |inner| ==> inner[i].1 > 0.0
    requires 0 <= j < |inner|
    ensures inner[j].1 <= SumValues(inner)
  {
    SumPositive(inner[..|inner| - 1]);
    if j < |inner| - 1 {
      ValueBelowSum(inner[..|inner| - 1], j);
    }
  }

  /** The ratios of a non-empty inner map of positive counts are
      probabilities in (0, 1] that sum to one. */
  lemma {:induction false} RatiosDistribution(inner: OrderedMap<string, real>)
    requires forall j :: 0 <= j < |inner| ==> inner[j].1 > 0.0
    requires inner != []
    ensures SumValues(Ratios(inner)) == 1.0
    ensures forall j :: 0 <= j < |inner| ==> 0.0 < Ratios(inner)[j].1 <= 1.0
  {
    var s := SumValues(inner);
    assert Ratios(inner) == Scaled(inner, s);
    ScaledSum(inner, s);
    forall j | 0 <= j < |inner|
      ensures 0.0 < Ratios(inner)[j].1 <= 1.0
    {
      ValueBelowSum(inner, j);
      RatioBound(inner[j].1, s);
    }
  }

  lemma {:induction false} RatioBound(x: real, s: real)
    requires 0.0 < x <= s
    ensures 0.0 < x / s <= 1.0
  {
    var d := s - x;
    assert s / s == 1.0;
    assert x / s + d / s == s / s;
    assert d / s >= 0.0;
  }

  /** makeLog keeps the keys of every inner map and stores at each the log
      of a probability; the probabilities of one inner map sum to one. */
  lemma {:induction false} LogTableDistribution(m: Table, log: real -> real, k: string)
    requires Positive(m) && k in m && m[k] != []
    ensures k in LogTable(m, log) && Keys(LogTable(m, log)[k]) == Keys(m[k])
    ensures SumValues(Ratios(m[k])) == 1.0
    ensures forall j :: 0 <= j < |m[k]| ==>
      0.0 < Ratios(m[k])[j].1 <= 1.0 && LogTable(m, log)[k][j].1 == log(Ratios(m[k])[j].1)
  {
    RatiosDistribution(m[k]);
  }

  /** So for every tag with transitions in the trained table, the transition
      probabilities behind its log-scores sum to one. */
  lemma {:induction false} TransitionsDistribution(lines: seq<seq<string>>, log: real -> real, a: string)
    requires a in BumpAll(Pairs(lines))
    ensures Positive(BumpAll(Pairs(lines)))
    ensures SumValues(Ratios(BumpAll(Pairs(lines))[a])) == 1.0
    ensures Keys(LogTable(BumpAll(Pairs(lines)), log)[a]) == Keys(BumpAll(Pairs(lines))[a])
  {
    BumpAllPositive(Pairs(lines));
    BumpAllCounted(Pairs(lines));
    LogTableDistribution(BumpAll(Pairs(lines)), log, a);
  }
}
