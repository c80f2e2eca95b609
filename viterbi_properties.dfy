/**
 * What decode promises, proved about the specification functions of Viterbi:
 * the per-destination maximum with its first-wins tie-break, the shape of the
 * backpointer maps, and the length and contents of the decoded tags.
 */
module ViterbiProperties {
  import opened Wrappers
  import opened OrderedMaps
  import opened Viterbi

  // ---------------------------------------------------------------------------
  // One fold of candidates
  // ---------------------------------------------------------------------------

  /** cs[i] is the first candidate of largest score among those reaching its destination. */
  ghost predicate Winner(cs: seq<Candidate>, i: nat)
    requires i < |cs|
  {
    forall j :: 0 <= j < |cs| && cs[j].dst == cs[i].dst ==>
      cs[j].score <= cs[i].score && (j < i ==> cs[j].score < cs[i].score)
  }

  /** The entry of destination d in l carries the score and source of d's winner in cs. */
  ghost predicate HoldsWinner(cs: seq<Candidate>, l: Layer, d: State)
  {
    exists i :: 0 <= i < |cs| && cs[i].dst == d && Winner(cs, i) &&
      Get(l.scores, d) == Some(cs[i].score) && Get(l.back, d) == Some(cs[i].src)
  }

  /** No candidate of cs reaches d. */
  ghost predicate Unreached(cs: seq<Candidate>, d: State)
  {
    forall i :: 0 <= i < |cs| ==> cs[i].dst != d
  }

  /** What a layer built from cs holds: one entry per destination reached, and
      for each the score and the source of that destination's winner. */
  ghost predicate Summarises(cs: seq<Candidate>, l: Layer)
  {
    Distinct(l.scores) && Distinct(l.back) && Keys(l.scores) == Keys(l.back) &&
    (forall d :: Get(l.scores, d).None? <==> Unreached(cs, d)) &&
    (forall d :: Get(l.scores, d).Some? ==> HoldsWinner(cs, l, d))
  }

  lemma {:induction false} FoldSummarises(cs: seq<Candidate>)
    ensures Summarises(cs, Fold(cs))
  {
    if cs != [] {
      var n := |cs| - 1;
      var pre, c := cs[..n], cs[n];
      assert cs == pre + [c];
      FoldSummarises(pre);
      RelaxSummarises(pre, c, Fold(pre));
    }
  }

  lemma {:induction false} RelaxSummarises(pre: seq<Candidate>, c: Candidate, l: Layer)
    requires Summarises(pre, l)
    ensures Summarises(pre + [c], Relax(l, c))
  {
    var r := Relax(l, c);
    assert Keys(r.scores) == Keys(r.back) by {
      assert (c.dst in Keys(l.scores)) == (c.dst in Keys(l.back));
    }
    forall d ensures Get(r.scores, d).None? <==> Unreached(pre + [c], d) {
      RelaxUnreached(pre, c, l, d);
    }
    forall d | Get(r.scores, d).Some? ensures HoldsWinner(pre + [c], r, d) {
      RelaxWinner(pre, c, l, d);
    }
  }

  lemma {:induction false} RelaxUnreached(pre: seq<Candidate>, c: Candidate, l: Layer, d: State)
    requires forall d :: Get(l.scores, d).None? <==> Unreached(pre, d)
    ensures Get(Relax(l, c).scores, d).None? <==> Unreached(pre + [c], d)
  {
    var cs := pre + [c];
    assert forall i :: 0 <= i < |pre| ==> cs[i] == pre[i];
    assert cs[|pre|] == c;
  }

  lemma {:induction false} RelaxWinner(pre: seq<Candidate>, c: Candidate, l: Layer, d: State)
    requires forall d :: Get(l.scores, d).None? <==> Unreached(pre, d)
    requires forall d :: Get(l.scores, d).Some? ==> HoldsWinner(pre, l, d)
    requires Get(Relax(l, c).scores, d).Some?
    ensures HoldsWinner(pre + [c], Relax(l, c), d)
  {
    var r := Relax(l, c);
    var prior := Get(l.scores, c.dst);
    var taken := prior.None? || c.score > prior.value;
    if d != c.dst || !taken {
      assert Get(r.scores, d) == Get(l.scores, d) && Get(r.back, d) == Get(l.back, d);
      var i :| 0 <= i < |pre| && pre[i].dst == d && Winner(pre, i) &&
        Get(l.scores, d) == Some(pre[i].score) && Get(l.back, d) == Some(pre[i].src);
      WinnerKept(pre, c, i);
      assert (pre + [c])[i] == pre[i];
    } else {
      assert Get(r.scores, d) == Some(c.score) && Get(r.back, d) == Some(c.src);
      if prior.Some? {
        var i :| 0 <= i < |pre| && pre[i].dst == d && Winner(pre, i) &&
          Get(l.scores, d) == Some(pre[i].score) && Get(l.back, d) == Some(pre[i].src);
        assert forall j :: 0 <= j < |pre| && pre[j].dst == c.dst ==> pre[j].score <= pre[i].score;
      } else {
        assert Unreached(pre, d);
      }
      WinnerNew(pre, c);
      assert (pre + [c])[|pre|] == c;
    }
  }

  /** A winner stays one when the new candidate goes elsewhere or does not beat it. */
  lemma {:induction false} WinnerKept(pre: seq<Candidate>, c: Candidate, i: nat)
    requires i < |pre| && Winner(pre, i)
    requires c.dst != pre[i].dst || c.score <= pre[i].score
    ensures Winner(pre + [c], i)
  {
    var cs := pre + [c];
    assert forall j :: 0 <= j < |pre| ==> cs[j] == pre[j];
  }

  /** The new candidate wins when it beats every earlier one of its destination. */
  lemma {:induction false} WinnerNew(pre: seq<Candidate>, c: Candidate)
    requires forall j :: 0 <= j < |pre| && pre[j].dst == c.dst ==> pre[j].score < c.score
    ensures Winner(pre + [c], |pre|)
  {
    var cs := pre + [c];
    assert forall j :: 0 <= j < |pre| ==> cs[j] == pre[j];
  }

  // ---------------------------------------------------------------------------
  // The candidates of a step, source by source
  // ---------------------------------------------------------------------------

  /** (i, j) names frontier entry i and the j-th entry of its transition map. */
  ghost predicate InStep(frontier: OrderedMap<State, real>, tProb: Table, i: int, j: int)
  {
    0 <= i < |frontier| && frontier[i].0 in tProb && 0 <= j < |tProb[frontier[i].0]|
  }

  /** The position in Cands where the candidates of frontier entry i begin. */
  ghost function Offset(frontier: OrderedMap<State, real>, tProb: Table, i: nat): nat
    requires i <= |frontier|
    requires forall k :: 0 <= k < i ==> frontier[k].0 in tProb
  {
    if i == 0 then 0 else Offset(frontier, tProb, i - 1) + |tProb[frontier[i - 1].0]|
  }

  lemma {:induction false} RowLength(src: State, currScore: real, transitions: OrderedMap<State, real>,
                                     oProb: Table, obs: Observation)
    requires TargetsKnown(transitions, oProb)
    ensures |Row(src, currScore, transitions, oProb, obs)| == |transitions|
  {
    if transitions != [] {
      var n := |transitions| - 1;
      assert TargetsKnown(transitions[..n], oProb);
      RowLength(src, currScore, transitions[..n], oProb, obs);
    }
  }

  /** The j-th candidate of a row comes from the j-th transition. */
  lemma {:induction false} RowAt(src: State, currScore: real, transitions: OrderedMap<State, real>,
                                 oProb: Table, obs: Observation, j: nat)
    requires TargetsKnown(transitions, oProb)
    requires j < |transitions|
    ensures |Row(src, currScore, transitions, oProb, obs)| == |transitions|
    ensures Row(src, currScore, transitions, oProb, obs)[j]
            == MakeCandidate(src, currScore, transitions[j], oProb, obs)
  {
    var n := |transitions| - 1;
    assert TargetsKnown(transitions[..n], oProb);
    RowLength(src, currScore, transitions, oProb, obs);
    RowLength(src, currScore, transitions[..n], oProb, obs);
    if j < n {
      RowAt(src, currScore, transitions[..n], oProb, obs, j);
    }
  }

  lemma {:induction false} OffsetPrefix(frontier: OrderedMap<State, real>, tProb: Table, n: nat, i: nat)
    requires i <= n <= |frontier|
    requires forall k :: 0 <= k < n ==> frontier[k].0 in tProb
    ensures Offset(frontier[..n], tProb, i) == Offset(frontier, tProb, i)
  {
    if i > 0 {
      OffsetPrefix(frontier, tProb, n, i - 1);
      assert frontier[..n][i - 1] == frontier[i - 1];
    }
  }

  lemma {:induction false} OffsetMonotone(frontier: OrderedMap<State, real>, tProb: Table, i: nat, i': nat)
    requires i <= i' <= |frontier|
    requires forall k :: 0 <= k < i' ==> frontier[k].0 in tProb
    ensures Offset(frontier, tProb, i) <= Offset(frontier, tProb, i')
    decreases i' - i
  {
    if i < i' {
      OffsetMonotone(frontier, tProb, i, i' - 1);
    }
  }

  /** Cands of a non-empty frontier: those of all but its last entry, then that entry's row. */
  lemma {:induction false} CandsLast(frontier: OrderedMap<State, real>, tProb: Table, oProb: Table, obs: Observation)
    requires StepDefined(frontier, tProb, oProb) && frontier != []
    ensures StepDefined(frontier[..|frontier| - 1], tProb, oProb)
    ensures var n := |frontier| - 1;
      Cands(frontier, tProb, oProb, obs)
        == Cands(frontier[..n], tProb, oProb, obs)
           + Row(frontier[n].0, frontier[n].1, tProb[frontier[n].0], oProb, obs)
  {
    var n := |frontier| - 1;
    assert forall k :: 0 <= k < n ==> frontier[..n][k] == frontier[k];
  }

  /** The number of candidates of a step. */
  lemma {:induction false} CandsLength(frontier: OrderedMap<State, real>, tProb: Table, oProb: Table,
                                       obs: Observation)
    requires StepDefined(frontier, tProb, oProb)
    ensures |Cands(frontier, tProb, oProb, obs)| == Offset(frontier, tProb, |frontier|)
  {
    if frontier != [] {
      var n := |frontier| - 1;
      CandsLast(frontier, tProb, oProb, obs);
      CandsLength(frontier[..n], tProb, oProb, obs);
      OffsetPrefix(frontier, tProb, n, n);
      RowLength(frontier[n].0, frontier[n].1, tProb[frontier[n].0], oProb, obs);
    }
  }

  /** Cands lists the candidate of (i, j) at Offset(i) + j. */
  lemma {:induction false} CandsAt(frontier: OrderedMap<State, real>, tProb: Table, oProb: Table,
                                   obs: Observation, i: nat, j: nat)
    requires StepDefined(frontier, tProb, oProb)
    requires InStep(frontier, tProb, i, j)
    ensures Offset(frontier, tProb, i) + j < |Cands(frontier, tProb, oProb, obs)|
    ensures Cands(frontier, tProb, oProb, obs)[Offset(frontier, tProb, i) + j]
            == CandidateAt(frontier, tProb, oProb, obs, i, j)
    decreases |frontier|, 1
  {
    if i < |frontier| - 1 {
      CandsAtEarlier(frontier, tProb, oProb, obs, i, j);
    } else {
      CandsAtLast(frontier, tProb, oProb, obs, j);
    }
  }

  /** CandsAt for a pair whose source is not the last frontier entry. */
  lemma {:induction false} CandsAtEarlier(frontier: OrderedMap<State, real>, tProb: Table, oProb: Table,
                                          obs: Observation, i: nat, j: nat)
    requires StepDefined(frontier, tProb, oProb)
    requires InStep(frontier, tProb, i, j) && i < |frontier| - 1
    ensures Offset(frontier, tProb, i) + j < |Cands(frontier, tProb, oProb, obs)|
    ensures Cands(frontier, tProb, oProb, obs)[Offset(frontier, tProb, i) + j]
            == CandidateAt(frontier, tProb, oProb, obs, i, j)
    decreases |frontier|, 0
  {
    var n := |frontier| - 1;
    var p := frontier[..n];
    CandsLast(frontier, tProb, oProb, obs);
    var pre := Cands(p, tProb, oProb, obs);
    var cs := Cands(frontier, tProb, oProb, obs);
    CandsLength(p, tProb, oProb, obs);
    OffsetPrefix(frontier, tProb, n, n);
    assert p[i] == frontier[i];
    assert InStep(p, tProb, i, j);
    CandsAt(p, tProb, oProb, obs, i, j);
    OffsetPrefix(frontier, tProb, n, i);
    OffsetMonotone(frontier, tProb, i + 1, n);
    assert cs[Offset(frontier, tProb, i) + j] == pre[Offset(p, tProb, i) + j];
  }

  /** CandsAt for a pair whose source is the last frontier entry. */
  lemma {:induction false} CandsAtLast(frontier: OrderedMap<State, real>, tProb: Table, oProb: Table, obs: Observation, j: nat)
    requires StepDefined(frontier, tProb, oProb)
    requires InStep(frontier, tProb, |frontier| - 1, j)
    ensures Offset(frontier, tProb, |frontier| - 1) + j < |Cands(frontier, tProb, oProb, obs)|
    ensures Cands(frontier, tProb, oProb, obs)[Offset(frontier, tProb, |frontier| - 1) + j]
            == CandidateAt(frontier, tProb, oProb, obs, |frontier| - 1, j)
  {
    var n := |frontier| - 1;
    var p := frontier[..n];
    CandsLast(frontier, tProb, oProb, obs);
    var src := frontier[n].0;
    var row := Row(src, frontier[n].1, tProb[src], oProb, obs);
    var cs := Cands(frontier, tProb, oProb, obs);
    var pre := Cands(p, tProb, oProb, obs);
    assert cs == pre + row;
    CandsLength(p, tProb, oProb, obs);
    OffsetPrefix(frontier, tProb, n, n);
    var off := Offset(frontier, tProb, n);
    assert off == |pre|;
    RowAt(src, frontier[n].1, tProb[src], oProb, obs, j);
    assert row[j] == CandidateAt(frontier, tProb, oProb, obs, n, j);
    assert cs[off + j] == row[j];
  }

  /** Every entry of Cands is the candidate of some (i, j), found at Offset(i) + j. */
  lemma {:induction false} CandsPlace(frontier: OrderedMap<State, real>, tProb: Table, oProb: Table,
                                      obs: Observation, k: nat) returns (i: nat, j: nat)
    requires StepDefined(frontier, tProb, oProb)
    requires k < |Cands(frontier, tProb, oProb, obs)|
    ensures InStep(frontier, tProb, i, j) && k == Offset(frontier, tProb, i) + j
    ensures Cands(frontier, tProb, oProb, obs)[k] == CandidateAt(frontier, tProb, oProb, obs, i, j)
  {
    var n := |frontier| - 1;
    var p := frontier[..n];
    CandsLast(frontier, tProb, oProb, obs);
    var src := frontier[n].0;
    var pre := Cands(p, tProb, oProb, obs);
    var row := Row(src, frontier[n].1, tProb[src], oProb, obs);
    var cs := Cands(frontier, tProb, oProb, obs);
    CandsLength(p, tProb, oProb, obs);
    if k < |pre| {
      i, j := CandsPlace(p, tProb, oProb, obs, k);
      OffsetPrefix(frontier, tProb, n, i);
      assert p[i] == frontier[i];
      assert InStep(frontier, tProb, i, j);
      assert cs[k] == pre[k];
    } else {
      RowLength(src, frontier[n].1, tProb[src], oProb, obs);
      OffsetPrefix(frontier, tProb, n, n);
      i, j := n, k - |pre|;
      RowAt(src, frontier[n].1, tProb[src], oProb, obs, j);
      assert InStep(frontier, tProb, i, j);
      assert cs[k] == row[j];
    }
  }

  // ---------------------------------------------------------------------------
  // One step, in the source's terms
  // ---------------------------------------------------------------------------

  /** Pair (i, j) is visited before pair (i', j') by decode's two loops. */
  predicate Before(i': int, j': int, i: int, j: int)
  {
    i' < i || (i' == i && j' < j)
  }

  /** Pair (i, j) reaches d with the largest score of all pairs reaching d, and
      every pair visited before it that reaches d scores strictly less. */
  ghost predicate BestFor(frontier: OrderedMap<State, real>, tProb: Table, oProb: Table,
                          obs: Observation, d: State, i: int, j: int)
    requires StepDefined(frontier, tProb, oProb)
  {
    InStep(frontier, tProb, i, j) && CandidateAt(frontier, tProb, oProb, obs, i, j).dst == d &&
    forall i', j' :: InStep(frontier, tProb, i', j') && CandidateAt(frontier, tProb, oProb, obs, i', j').dst == d ==>
      CandidateAt(frontier, tProb, oProb, obs, i', j').score <= CandidateAt(frontier, tProb, oProb, obs, i, j).score &&
      (Before(i', j', i, j) ==>
         CandidateAt(frontier, tProb, oProb, obs, i', j').score < CandidateAt(frontier, tProb, oProb, obs, i, j).score)
  }

  /** No pair of the step reaches d. */
  ghost predicate NoPairReaches(frontier: OrderedMap<State, real>, tProb: Table, oProb: Table,
                                obs: Observation, d: State)
    requires StepDefined(frontier, tProb, oProb)
  {
    forall i, j :: InStep(frontier, tProb, i, j) ==> CandidateAt(frontier, tProb, oProb, obs, i, j).dst != d
  }

  /** A step records a destination exactly when some pair reaches it. */
  lemma {:induction false} StepReaches(frontier: OrderedMap<State, real>, tProb: Table, oProb: Table,
                    obs: Observation, d: State)
    requires StepDefined(frontier, tProb, oProb)
    ensures Get(Fold(Cands(frontier, tProb, oProb, obs)).scores, d).None?
            <==> NoPairReaches(frontier, tProb, oProb, obs, d)
  {
    var cs := Cands(frontier, tProb, oProb, obs);
    FoldSummarises(cs);
    if Unreached(cs, d) {
      forall i, j | InStep(frontier, tProb, i, j)
        ensures CandidateAt(frontier, tProb, oProb, obs, i, j).dst != d
      {
        CandsAt(frontier, tProb, oProb, obs, i, j);
      }
    }
    if NoPairReaches(frontier, tProb, oProb, obs, d) {
      forall k | 0 <= k < |cs| ensures cs[k].dst != d {
        var i, j := CandsPlace(frontier, tProb, oProb, obs, k);
      }
      assert Unreached(cs, d);
    }
  }

  /** The order of pairs is the order of their positions in Cands. */
  lemma {:induction false} BeforeOffset(frontier: OrderedMap<State, real>, tProb: Table, i': nat, j': nat, i: nat, j: nat)
    requires InStep(frontier, tProb, i', j') && InStep(frontier, tProb, i, j)
    requires forall k :: 0 <= k < |frontier| ==> frontier[k].0 in tProb
    requires Before(i', j', i, j)
    ensures Offset(frontier, tProb, i') + j' < Offset(frontier, tProb, i) + j
  {
    if i' < i {
      OffsetMonotone(frontier, tProb, i' + 1, i);
    }
  }

  /** A recorded destination holds the best score over all pairs reaching it,
      and the backpointer to the source of the first pair reaching that score
      (replacement needs a strictly larger score). */
  lemma {:induction false} StepBest(frontier: OrderedMap<State, real>, tProb: Table, oProb: Table,
                 obs: Observation, d: State) returns (i: nat, j: nat)
    requires StepDefined(frontier, tProb, oProb)
    requires Get(Fold(Cands(frontier, tProb, oProb, obs)).scores, d).Some?
    ensures BestFor(frontier, tProb, oProb, obs, d, i, j)
    ensures Get(Fold(Cands(frontier, tProb, oProb, obs)).scores, d)
            == Some(CandidateAt(frontier, tProb, oProb, obs, i, j).score)
    ensures Get(Fold(Cands(frontier, tProb, oProb, obs)).back, d) == Some(frontier[i].0)
  {
    var cs := Cands(frontier, tProb, oProb, obs);
    var l := Fold(cs);
    FoldSummarises(cs);
    assert HoldsWinner(cs, l, d);
    var w :| 0 <= w < |cs| && cs[w].dst == d && Winner(cs, w) &&
      Get(l.scores, d) == Some(cs[w].score) && Get(l.back, d) == Some(cs[w].src);
    i, j := CandsPlace(frontier, tProb, oProb, obs, w);
    forall i', j' | InStep(frontier, tProb, i', j') && CandidateAt(frontier, tProb, oProb, obs, i', j').dst == d
      ensures CandidateAt(frontier, tProb, oProb, obs, i', j').score <= CandidateAt(frontier, tProb, oProb, obs, i, j).score
      ensures Before(i', j', i, j) ==>
        CandidateAt(frontier, tProb, oProb, obs, i', j').score < CandidateAt(frontier, tProb, oProb, obs, i, j).score
    {
      CandsAt(frontier, tProb, oProb, obs, i', j');
      if Before(i', j', i, j) {
        BeforeOffset(frontier, tProb, i', j', i, j);
      }
    }
  }

  /** A step's backpointer map has the keys of its new frontier, and every
      backpointer is a state of the frontier it was computed from. */
  lemma {:induction false} StepShape(frontier: OrderedMap<State, real>, tProb: Table, oProb: Table, obs: Observation)
    requires StepDefined(frontier, tProb, oProb)
    ensures var l := Fold(Cands(frontier, tProb, oProb, obs));
      Distinct(l.scores) && Distinct(l.back) && Keys(l.back) == Keys(l.scores) &&
      forall k :: 0 <= k < |l.back| ==> l.back[k].1 in Keys(frontier)
  {
    var l := Fold(Cands(frontier, tProb, oProb, obs));
    FoldSummarises(Cands(frontier, tProb, oProb, obs));
    forall k | 0 <= k < |l.back| ensures l.back[k].1 in Keys(frontier) {
      var d := l.back[k].0;
      assert Keys(l.back)[k] == d;
      assert Get(l.back, d) == Some(l.back[k].1);
      assert Get(l.scores, d).Some?;
      var i, j := StepBest(frontier, tProb, oProb, obs, d);
      assert Keys(frontier)[i] == frontier[i].0;
    }
  }

  // ---------------------------------------------------------------------------
  // The forward pass
  // ---------------------------------------------------------------------------

  /** A successful pass over the observations passed over each prefix of them,
      with the backpointer maps so far. */
  lemma {:induction false} RunPrefix(tProb: Table, oProb: Table, observations: seq<Observation>, k: nat)
    requires k <= |observations|
    requires Run(tProb, oProb, observations).Success?
    ensures Run(tProb, oProb, observations[..k]).Success?
    ensures |Run(tProb, oProb, observations).value.1| == |observations|
    ensures Run(tProb, oProb, observations[..k]).value.1 == Run(tProb, oProb, observations).value.1[..k]
    decreases |observations|
  {
    if observations == [] {
      assert observations[..k] == observations;
    } else {
      var n := |observations| - 1;
      if k <= n {
        RunPrefix(tProb, oProb, observations[..n], k);
        RunPrefix(tProb, oProb, observations[..n], n);
        assert observations[..n][..n] == observations[..n];
        assert observations[..n][..k] == observations[..k];
      } else {
        RunPrefix(tProb, oProb, observations[..n], n);
        assert observations[..n][..n] == observations[..n];
        assert observations[..k] == observations;
      }
    }
  }

  /** The frontier after the first k observations of a run that fails nowhere. */
  ghost function FrontierAt(tProb: Table, oProb: Table, observations: seq<Observation>, k: nat)
    : OrderedMap<State, real>
    requires k <= |observations|
    requires Run(tProb, oProb, observations).Success?
  {
    RunPrefix(tProb, oProb, observations, k);
    Run(tProb, oProb, observations[..k]).value.0
  }

  /** Step k of a successful run is defined on frontier k, produces frontier
      k + 1 and records the k-th backpointer map. */
  lemma {:induction false} RunStepAt(tProb: Table, oProb: Table, observations: seq<Observation>, k: nat)
    requires k < |observations|
    requires Run(tProb, oProb, observations).Success?
    ensures |Run(tProb, oProb, observations).value.1| == |observations|
    ensures Step(FrontierAt(tProb, oProb, observations, k), tProb, oProb, observations[k])
        == Success(Layer(FrontierAt(tProb, oProb, observations, k + 1),
                         Run(tProb, oProb, observations).value.1[k]))
  {
    RunPrefix(tProb, oProb, observations, k);
    RunPrefix(tProb, oProb, observations, k + 1);
    var backs := Run(tProb, oProb, observations).value.1;
    var pre := observations[..k + 1];
    assert pre[..k] == observations[..k];
    assert pre[k] == observations[k];
    var before := Run(tProb, oProb, observations[..k]).value;
    var after := Run(tProb, oProb, pre).value;
    assert FrontierAt(tProb, oProb, observations, k) == before.0;
    assert FrontierAt(tProb, oProb, observations, k + 1) == after.0;
    var step := Step(before.0, tProb, oProb, observations[k]);
    assert step.Success? && after == (step.value.scores, before.1 + [step.value.back]);
    assert backs[..k + 1] == after.1;
    assert backs[k] == backs[..k + 1][k] == step.value.back;
  }

  /** The k-th backpointer map of a successful run has the keys of frontier
      k + 1, and its values are states of frontier k. */
  lemma {:induction false} RunStepShape(tProb: Table, oProb: Table, observations: seq<Observation>, k: nat)
    requires k < |observations|
    requires Run(tProb, oProb, observations).Success?
    ensures var backs := Run(tProb, oProb, observations).value.1;
      |backs| == |observations| &&
      StepDefined(FrontierAt(tProb, oProb, observations, k), tProb, oProb) &&
      Keys(backs[k]) == Keys(FrontierAt(tProb, oProb, observations, k + 1)) &&
      forall m :: 0 <= m < |backs[k]| ==> backs[k][m].1 in Keys(FrontierAt(tProb, oProb, observations, k))
  {
    RunStepAt(tProb, oProb, observations, k);
    StepShape(FrontierAt(tProb, oProb, observations, k), tProb, oProb, observations[k]);
  }

  /** A run fails exactly when, on some prefix that succeeded, the next step
      would dereference null. */
  lemma {:induction false} RunFails(tProb: Table, oProb: Table, observations: seq<Observation>)
    ensures Run(tProb, oProb, observations).Failure? <==>
      exists k :: 0 <= k < |observations| && Run(tProb, oProb, observations[..k]).Success? &&
        !StepDefined(Run(tProb, oProb, observations[..k]).value.0, tProb, oProb)
  {
    if observations != [] {
      var n := |observations| - 1;
      var pre := observations[..n];
      RunFails(tProb, oProb, pre);
      assert forall k :: 0 <= k <= n ==> pre[..k] == observations[..k];
      assert observations[..n] == pre;
      if Run(tProb, oProb, pre).Failure? {
        var k :| 0 <= k < n && Run(tProb, oProb, pre[..k]).Success? &&
          !StepDefined(Run(tProb, oProb, pre[..k]).value.0, tProb, oProb);
        assert pre[..k] == observations[..k];
        assert Run(tProb, oProb, observations).Failure?;
      } else if Run(tProb, oProb, observations).Failure? {
        var frontier := Run(tProb, oProb, pre).value.0;
        assert Step(frontier, tProb, oProb, observations[n]).Failure?;
        assert !StepDefined(Run(tProb, oProb, observations[..n]).value.0, tProb, oProb);
      } else {
        forall k | 0 <= k < |observations| && Run(tProb, oProb, observations[..k]).Success?
          ensures StepDefined(Run(tProb, oProb, observations[..k]).value.0, tProb, oProb)
        {
          if k == n {
          } else {
            assert Run(tProb, oProb, pre[..k]).Success?;
          }
        }
      }
    }
  }

  // ---------------------------------------------------------------------------
  // The backtrace and the decoded tags
  // ---------------------------------------------------------------------------

  /** The backtrace, entry by entry: it ends with the state it starts from, and
      each entry is the backpointer of the one after it. */
  lemma {:induction false} BacktraceAt(backs: seq<OrderedMap<State, State>>, last: Option<State>)
    ensures var b := Backtrace(backs, last);
      |b| == |backs| + 1 && b[|backs|] == last &&
      forall k :: 0 <= k < |backs| ==> b[k] == Lookup(backs[k], b[k + 1])
  {
    if backs != [] {
      var n := |backs| - 1;
      var prev := Lookup(backs[n], last);
      BacktraceAt(backs[..n], prev);
      var b := Backtrace(backs, last);
      var b' := Backtrace(backs[..n], prev);
      assert b == b' + [last];
      forall k | 0 <= k < |backs| ensures b[k] == Lookup(backs[k], b[k + 1]) {
        if k < n {
          assert backs[..n][k] == backs[k];
        }
      }
    }
  }

  /** decode of no observations is the empty list. */
  lemma {:induction false} DecodeEmpty(tProb: Table, oProb: Table)
    ensures DecodeSpec(tProb, oProb, []) == Success([])
  {
    var empty: seq<Observation> := [];
    assert Run(tProb, oProb, empty) == Success(([(Start, 0.0)], []));
    assert MaxKey([]) == "";
    assert Backtrace([], Some("")) == [Some("")];
    assert [Some("")][1..] == [];
  }

  /** decode returns one tag per observation, or fails exactly when the forward
      pass dereferences null. */
  lemma {:induction false} DecodeLength(tProb: Table, oProb: Table, observations: seq<Observation>)
    ensures DecodeSpec(tProb, oProb, observations).Failure? <==> Run(tProb, oProb, observations).Failure?
    ensures DecodeSpec(tProb, oProb, observations).Success? ==>
      |DecodeSpec(tProb, oProb, observations).value| == |observations|
  {
    if Run(tProb, oProb, observations).Success? {
      var (frontier, backs) := Run(tProb, oProb, observations).value;
      RunPrefix(tProb, oProb, observations, 0);
      var finalScores := if observations == [] then [] else frontier;
      BacktraceAt(backs, Some(MaxKey(finalScores)));
    }
  }

  /** Following the backpointers from a state of frontier k + 1 gives a state of frontier k. */
  lemma {:induction false} BackpointerIn(tProb: Table, oProb: Table, observations: seq<Observation>, k: nat, x: State)
    requires k < |observations|
    requires Run(tProb, oProb, observations).Success?
    requires x in Keys(FrontierAt(tProb, oProb, observations, k + 1))
    ensures |Run(tProb, oProb, observations).value.1| == |observations|
    ensures var back := Run(tProb, oProb, observations).value.1[k];
      Get(back, x).Some? && Get(back, x).value in Keys(FrontierAt(tProb, oProb, observations, k))
  {
    RunStepShape(tProb, oProb, observations, k);
  }

  /** Every entry of the backtrace from a state of the last frontier, down to
      entry k, is a state of the frontier of its step. */
  lemma {:induction false} BacktraceInFrontiers(tProb: Table, oProb: Table, observations: seq<Observation>,
                                                last: State, k: nat)
    requires k <= |observations|
    requires Run(tProb, oProb, observations).Success?
    requires last in Keys(FrontierAt(tProb, oProb, observations, |observations|))
    ensures var b := Backtrace(Run(tProb, oProb, observations).value.1, Some(last));
      |b| == |observations| + 1 &&
      b[k].Some? && b[k].value in Keys(FrontierAt(tProb, oProb, observations, k))
    decreases |observations| - k
  {
    var backs := Run(tProb, oProb, observations).value.1;
    RunPrefix(tProb, oProb, observations, 0);
    BacktraceAt(backs, Some(last));
    if k < |observations| {
      BacktraceInFrontiers(tProb, oProb, observations, last, k + 1);
      var b := Backtrace(backs, Some(last));
      BackpointerIn(tProb, oProb, observations, k, b[k + 1].value);
    }
  }

  /** When the last frontier is not empty, decode's tags are the backpointer
      chain from the final argmax: each is a state of its step's frontier, the
      last is the argmax of the final scores, each one's backpointer is the tag
      before it, and the first one's is the start state "#", which the
      backtrace adds and decode removes. */
  lemma {:induction false} DecodePath(tProb: Table, oProb: Table, observations: seq<Observation>)
    requires observations != []
    requires Run(tProb, oProb, observations).Success?
    requires FrontierAt(tProb, oProb, observations, |observations|) != []
    ensures var r := DecodeSpec(tProb, oProb, observations);
      var backs := Run(tProb, oProb, observations).value.1;
      var n := |observations|;
      r.Success? && |r.value| == n && |backs| == n &&
      (forall k :: 0 <= k < n ==>
         r.value[k].Some? && r.value[k].value in Keys(FrontierAt(tProb, oProb, observations, k + 1))) &&
      r.value[n - 1] == Some(MaxKey(FrontierAt(tProb, oProb, observations, n))) &&
      Get(backs[0], r.value[0].value) == Some(Start) &&
      (forall k :: 1 <= k < n ==> Get(backs[k], r.value[k].value) == r.value[k - 1])
  {
    var n := |observations|;
    var (frontier, backs) := Run(tProb, oProb, observations).value;
    assert observations[..n] == observations;
    assert FrontierAt(tProb, oProb, observations, n) == frontier;
    var m := MaxKey(frontier);
    assert Keys(frontier)[ArgMax(frontier)] == m;
    var b := Backtrace(backs, Some(m));
    BacktraceAt(backs, Some(m));
    RunPrefix(tProb, oProb, observations, 0);
    forall k | 0 <= k <= n ensures b[k].Some? && b[k].value in Keys(FrontierAt(tProb, oProb, observations, k)) {
      BacktraceInFrontiers(tProb, oProb, observations, m, k);
    }
    assert FrontierAt(tProb, oProb, observations, 0) == [(Start, 0.0)];
    assert b[0] == Some(Start);
    assert DecodeSpec(tProb, oProb, observations) == Success(b[1..]);
    var r := b[1..];
    forall k | 1 <= k < n ensures Get(backs[k], r[k].value) == r[k - 1] {
      assert r[k] == b[k + 1] && r[k - 1] == b[k];
    }
  }

  /** When the frontier runs empty, decode does not fail: the argmax of the
      empty map is "", which has no backpointer, so all tags before the last
      are null and the last is "". */
  lemma {:induction false} DecodeExhausted(tProb: Table, oProb: Table, observations: seq<Observation>)
    requires observations != []
    requires Run(tProb, oProb, observations).Success?
    requires FrontierAt(tProb, oProb, observations, |observations|) == []
    ensures DecodeSpec(tProb, oProb, observations)
            == Success(seq(|observations| - 1, _ => None) + [Some("")])
  {
    var n := |observations|;
    var (frontier, backs) := Run(tProb, oProb, observations).value;
    assert observations[..n] == observations;
    assert FrontierAt(tProb, oProb, observations, n) == frontier;
    RunPrefix(tProb, oProb, observations, 0);
    var b := Backtrace(backs, Some(""));
    BacktraceAt(backs, Some(""));
    RunStepShape(tProb, oProb, observations, n - 1);
    assert Keys(backs[n - 1]) == [];
    assert b[n - 1] == None;
    forall k | 0 <= k < n ensures b[k] == None
    {
      NoneBelow(backs, b, n - 1, k);
    }
    assert b[1..] == seq(n - 1, _ => None) + [Some("")];
  }

  lemma {:induction false} NoneBelow(backs: seq<OrderedMap<State, State>>, b: seq<Option<State>>, top: nat, k: nat)
    requires |b| == |backs| + 1 && top < |backs|
    requires forall k :: 0 <= k < |backs| ==> b[k] == Lookup(backs[k], b[k + 1])
    requires b[top] == None && k <= top
    ensures b[k] == None
    decreases top - k
  {
    if k < top {
      NoneBelow(backs, b, top, k + 1);
    }
  }

  // ---------------------------------------------------------------------------
  // The output line
  // ---------------------------------------------------------------------------

  /** Strings joined from the first to the last. */
  function Concat(parts: seq<string>): string
  {
    if parts == [] then "" else parts[0] + Concat(parts[1..])
  }

  /** The output line is the concatenation of one "word/tag " segment per word. */
  lemma {:induction false} TaggedSegments(words: seq<string>, tags: seq<State>)
    requires |words| <= |tags|
    ensures Tagged(words, tags)
            == Concat(seq(|words|, i requires 0 <= i < |words| => words[i] + "/" + tags[i] + " "))
  {
    if words != [] {
      var n := |words| - 1;
      TaggedSegments(words[..n], tags);
      var parts := seq(|words|, i requires 0 <= i < |words| => words[i] + "/" + tags[i] + " ");
      var front := seq(n, i requires 0 <= i < n => words[..n][i] + "/" + tags[i] + " ");
      assert parts == front + [parts[n]];
      ConcatSnoc(front, parts[n]);
    }
  }

  lemma {:induction false} ConcatSnoc(parts: seq<string>, last: string)
    ensures Concat(parts + [last]) == Concat(parts) + last
  {
    if parts != [] {
      assert (parts + [last])[1..] == parts[1..] + [last];
      ConcatSnoc(parts[1..], last);
    }
  }

  /** The tags decode returns for a sentence whose last frontier is not empty
      can be printed next to its words: none is null and there is one per word. */
  lemma {:induction false} DecodePrintable(tProb: Table, oProb: Table, observations: seq<Observation>, arr: seq<string>)
    requires observations != [] && |arr| <= |observations|
    requires Run(tProb, oProb, observations).Success?
    requires FrontierAt(tProb, oProb, observations, |observations|) != []
    ensures var r := DecodeSpec(tProb, oProb, observations);
      r.Success? && |arr| <= |r.value| && forall i :: 0 <= i < |r.value| ==> r.value[i].Some?
  {
    DecodePath(tProb, oProb, observations);
  }

  /** When the frontier runs empty on a sentence of two or more words, the
      first tag is null, so printing the tags next to the words throws. */
  lemma {:induction false} DecodeExhaustedUnprintable(tProb: Table, oProb: Table, observations: seq<Observation>)
    requires |observations| >= 2
    requires Run(tProb, oProb, observations).Success?
    requires FrontierAt(tProb, oProb, observations, |observations|) == []
    ensures var r := DecodeSpec(tProb, oProb, observations);
      r.Success? && |r.value| == |observations| && r.value[0].None?
  {
    DecodeExhausted(tProb, oProb, observations);
  }
}
