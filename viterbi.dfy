/**
 * The Viterbi decoder of the part-of-speech tagger (ps5-hmm-viterbi/Viterbi.java).
 *
 * Scores are reals: the source only adds and compares its doubles. The tables
 * are the trained log-probability maps; their inner maps, the frontier and the
 * backpointer maps are insertion-ordered (OrderedMaps), which fixes the
 * iteration order that HashMap leaves to hashing. Option's None stands for
 * Java's null, which the backtrace can produce.
 */
module Viterbi {
  import opened Wrappers
  import opened OrderedMaps

  type State = string
  type Observation = string

  /** tProb (state to successor scores) or oProb (state to observation scores). */
  type Table = map<State, OrderedMap<string, real>>

  /** The sentinel start state. */
  const Start: State := "#"

  /** The emission score charged when a state never emitted the observation. */
  const UnseenPenalty: real := -100.0

  /** The only way decode fails: a lookup that returns null is dereferenced. */
  datatype DecodeError = NullPointer

  /** One (source, destination) pair considered in a step, with its candidate score. */
  datatype Candidate = Candidate(src: State, dst: State, score: real)

  /** The maps one step builds: nextScores and backTrackTemp. */
  datatype Layer = Layer(scores: OrderedMap<State, real>, back: OrderedMap<State, State>)

  /** The emission score of an observation, with the penalty for an unseen one. */
  function Emission(emissions: OrderedMap<Observation, real>, obs: Observation): real
  {
    match Get(emissions, obs)
    case Some(v) => v
    case None => UnseenPenalty
  }

  // ---------------------------------------------------------------------------
  // One step of the forward pass
  // ---------------------------------------------------------------------------

  /** No lookup of the step dereferences null: every frontier state has a
      transition map and every transition target an emission map. */
  predicate StepDefined(frontier: OrderedMap<State, real>, tProb: Table, oProb: Table)
  {
    forall i :: 0 <= i < |frontier| ==> frontier[i].0 in tProb && TargetsKnown(tProb[frontier[i].0], oProb)
  }

  /** Every transition target has an emission map. */
  predicate TargetsKnown(transitions: OrderedMap<State, real>, oProb: Table)
  {
    forall j :: 0 <= j < |transitions| ==> transitions[j].0 in oProb
  }

  /** The candidate of a source with path score currScore and one of its
      transitions t: the sum of the path, transition and emission scores. */
  function MakeCandidate(src: State, currScore: real, t: (State, real), oProb: Table,
                         obs: Observation): Candidate
    requires t.0 in oProb
  {
    Candidate(src, t.0, currScore + t.1 + Emission(oProb[t.0], obs))
  }

  /** The candidate for frontier entry i and its j-th transition. */
  function CandidateAt(frontier: OrderedMap<State, real>, tProb: Table, oProb: Table,
                       obs: Observation, i: nat, j: nat): Candidate
    requires StepDefined(frontier, tProb, oProb)
    requires i < |frontier| && j < |tProb[frontier[i].0]|
  {
    MakeCandidate(frontier[i].0, frontier[i].1, tProb[frontier[i].0][j], oProb, obs)
  }

  /** The candidates of one source, in the order of its transition map. */
  function Row(src: State, currScore: real, transitions: OrderedMap<State, real>,
               oProb: Table, obs: Observation): seq<Candidate>
    requires TargetsKnown(transitions, oProb)
  {
    if transitions == [] then []
    else
      Row(src, currScore, transitions[..|transitions| - 1], oProb, obs)
        + [MakeCandidate(src, currScore, transitions[|transitions| - 1], oProb, obs)]
  }

  /** All candidates of a step, frontier state by frontier state. */
  function Cands(frontier: OrderedMap<State, real>, tProb: Table, oProb: Table,
                 obs: Observation): seq<Candidate>
    requires StepDefined(frontier, tProb, oProb)
  {
    if frontier == [] then []
    else
      var n := |frontier| - 1;
      assert StepDefined(frontier[..n], tProb, oProb) by {
        forall i | 0 <= i < n ensures frontier[..n][i] == frontier[i] { }
      }
      Cands(frontier[..n], tProb, oProb, obs)
        + Row(frontier[n].0, frontier[n].1, tProb[frontier[n].0], oProb, obs)
  }

  /** The update the inner loop performs for one candidate: a destination not
      yet seen, or seen with a strictly lower score, takes the candidate. */
  function Relax(acc: Layer, c: Candidate): Layer
  {
    match Get(acc.scores, c.dst)
    case None => Layer(Put(acc.scores, c.dst, c.score), Put(acc.back, c.dst, c.src))
    case Some(best) =>
      if c.score > best then Layer(Put(acc.scores, c.dst, c.score), Put(acc.back, c.dst, c.src))
      else acc
  }

  /** The maps built from a sequence of candidates processed in order. */
  function Fold(cs: seq<Candidate>): Layer
  {
    if cs == [] then Layer([], [])
    else Relax(Fold(cs[..|cs| - 1]), cs[|cs| - 1])
  }

  /** One step: the new frontier and its backpointers, or the null dereference. */
  function Step(frontier: OrderedMap<State, real>, tProb: Table, oProb: Table,
                obs: Observation): Result<Layer, DecodeError>
  {
    if StepDefined(frontier, tProb, oProb) then Success(Fold(Cands(frontier, tProb, oProb, obs)))
    else Failure(NullPointer)
  }

  // ---------------------------------------------------------------------------
  // The whole decode
  // ---------------------------------------------------------------------------

  /** The forward pass over a prefix of the observations: the current frontier
      (currScores) and the backpointer maps (backTrack). */
  function Run(tProb: Table, oProb: Table, observations: seq<Observation>)
    : Result<(OrderedMap<State, real>, seq<OrderedMap<State, State>>), DecodeError>
  {
    if observations == [] then Success(([(Start, 0.0)], []))
    else
      var n := |observations| - 1;
      match Run(tProb, oProb, observations[..n])
      case Failure(e) => Failure(e)
      case Success((frontier, backs)) =>
        match Step(frontier, tProb, oProb, observations[n])
        case Failure(e) => Failure(e)
        case Success(layer) => Success((layer.scores, backs + [layer.back]))
  }

  /** The index of the first entry with the largest score. */
  function ArgMax(m: OrderedMap<State, real>): (r: nat)
    requires m != []
    ensures r < |m|
    ensures forall j :: 0 <= j < |m| ==> m[j].1 <= m[r].1
    ensures forall j :: 0 <= j < r ==> m[j].1 < m[r].1
  {
    if |m| == 1 then 0
    else
      var i := ArgMax(m[..|m| - 1]);
      if m[|m| - 1].1 > m[i].1 then |m| - 1 else i
  }

  /** returnMax: the first key of largest score, "" for the empty map. */
  function MaxKey(m: OrderedMap<State, real>): State
  {
    if m == [] then "" else m[ArgMax(m)].0
  }

  /** A map lookup with a key that may itself be null. */
  function Lookup(back: OrderedMap<State, State>, key: Option<State>): Option<State>
  {
    match key
    case None => None
    case Some(k) => Get(back, k)
  }

  /** decodedPOS before its first element is removed: the states found by
      walking the backpointer maps from the last one down, ending with last. */
  function Backtrace(backs: seq<OrderedMap<State, State>>, last: Option<State>): seq<Option<State>>
  {
    if backs == [] then [last]
    else
      var n := |backs| - 1;
      Backtrace(backs[..n], Lookup(backs[n], last)) + [last]
  }

  /** What decode returns for a list of observations. */
  function DecodeSpec(tProb: Table, oProb: Table, observations: seq<Observation>)
    : Result<seq<Option<State>>, DecodeError>
  {
    match Run(tProb, oProb, observations)
    case Failure(e) => Failure(e)
    case Success((frontier, backs)) =>
      // nextScores is still the empty map when there was no observation
      var finalScores := if observations == [] then [] else frontier;
      Success(Backtrace(backs, Some(MaxKey(finalScores)))[1..])
  }

  // ---------------------------------------------------------------------------
  // The methods, as the source writes them
  // ---------------------------------------------------------------------------

  /** returnMax: a running maximum, replaced only by a strictly larger score. */
  method ReturnMax(nextScores: OrderedMap<State, real>) returns (maxKey: State)
    ensures maxKey == MaxKey(nextScores)
    ensures nextScores == [] ==> maxKey == ""
    ensures nextScores != [] ==>
      exists k :: 0 <= k < |nextScores| && maxKey == nextScores[k].0 &&
        (forall j :: 0 <= j < |nextScores| ==> nextScores[j].1 <= nextScores[k].1) &&
        (forall j :: 0 <= j < k ==> nextScores[j].1 < nextScores[k].1)
  {
    maxKey := "";
    var maxValue := 0.0;
    var isFirst := true;
    ghost var best := 0;
    var i := 0;
    while i < |nextScores|
      invariant 0 <= i <= |nextScores|
      invariant isFirst <==> i == 0
      invariant i == 0 ==> maxKey == ""
      invariant i > 0 ==> best == ArgMax(nextScores[..i])
      invariant i > 0 ==> maxKey == nextScores[best].0 && maxValue == nextScores[best].1
    {
      var (key, value) := nextScores[i];
      if isFirst {
        maxKey, maxValue := key, value;
        best := i;
        isFirst := false;
      }
      if value > maxValue {
        maxKey, maxValue := key, value;
        best := i;
      }
      assert nextScores[..i + 1][..i] == nextScores[..i];
      i := i + 1;
    }
    assert nextScores[..i] == nextScores;
  }

  /** The test-and-put of the inner loop: a destination not yet in nextScores,
      or one whose recorded score is strictly lower, takes the candidate. */
  method RecordIfBetter(nextScores: OrderedMap<State, real>, backTrackTemp: OrderedMap<State, State>,
                        currState: State, transition: State, nextScore: real)
    returns (scores: OrderedMap<State, real>, back: OrderedMap<State, State>)
    ensures Layer(scores, back)
      == Relax(Layer(nextScores, backTrackTemp), Candidate(currState, transition, nextScore))
  {
    scores, back := nextScores, backTrackTemp;
    var seen := Get(nextScores, transition);
    if seen.None? || nextScore > seen.value {
      back := Put(backTrackTemp, transition, currState);
      scores := Put(nextScores, transition, nextScore);
    }
  }

  /** The inner loop of decode for one frontier state: relax every transition
      of currState into the maps built so far (which are those of the
      candidates done). */
  method ExpandState(currState: State, currScore: real, transitions: OrderedMap<State, real>,
                     oProb: Table, observation: Observation, acc: Layer, ghost done: seq<Candidate>)
    returns (r: Result<Layer, DecodeError>)
    requires acc == Fold(done)
    ensures r.Success? <==> TargetsKnown(transitions, oProb)
    ensures r.Success? ==> r.value == Fold(done + Row(currState, currScore, transitions, oProb, observation))
  {
    var nextScores, backTrackTemp := acc.scores, acc.back;
    var j := 0;
    ghost var row: seq<Candidate> := [];
    ghost var all := done;
    assert all == done + row;
    while j < |transitions|
      invariant 0 <= j <= |transitions|
      invariant forall k :: 0 <= k < j ==> transitions[k].0 in oProb
      invariant row == Row(currState, currScore, transitions[..j], oProb, observation)
      invariant all == done + row
      invariant Layer(nextScores, backTrackTemp) == Fold(all)
    {
      var (transition, transitionScore) := transitions[j];
      if transition !in oProb {
        return Failure(NullPointer);
      }
      var observationScore := Emission(oProb[transition], observation);
      var nextScore := currScore + transitionScore + observationScore;
      ghost var c := Candidate(currState, transition, nextScore);
      assert c == MakeCandidate(currState, currScore, transitions[j], oProb, observation);
      RowStep(done, row, c, currState, currScore, transitions, j, oProb, observation);
      nextScores, backTrackTemp := RecordIfBetter(nextScores, backTrackTemp, currState, transition, nextScore);
      row, all := row + [c], all + [c];
      j := j + 1;
    }
    assert transitions[..j] == transitions;
    r := Success(Layer(nextScores, backTrackTemp));
  }

  /** Extending the row by the next transition's candidate extends the fold by one Relax. */
  lemma {:induction false} RowStep(done: seq<Candidate>, row: seq<Candidate>, c: Candidate, src: State, currScore: real,
                transitions: OrderedMap<State, real>, j: nat, oProb: Table, obs: Observation)
    requires j < |transitions|
    requires forall k :: 0 <= k <= j ==> transitions[k].0 in oProb
    requires row == Row(src, currScore, transitions[..j], oProb, obs)
    requires c == MakeCandidate(src, currScore, transitions[j], oProb, obs)
    ensures row + [c] == Row(src, currScore, transitions[..j + 1], oProb, obs)
    ensures done + (row + [c]) == (done + row) + [c]
    ensures Fold((done + row) + [c]) == Relax(Fold(done + row), c)
  {
    RowSnoc(src, currScore, transitions, j, oProb, obs);
    AppendSnoc(done, row, c);
    FoldSnoc(done + row, c);
  }

  lemma AppendSnoc<T>(a: seq<T>, b: seq<T>, x: T)
    ensures a + (b + [x]) == (a + b) + [x]
  {
  }

  lemma {:induction false} RowSnoc(src: State, currScore: real, transitions: OrderedMap<State, real>,
                j: nat, oProb: Table, obs: Observation)
    requires j < |transitions|
    requires forall k :: 0 <= k <= j ==> transitions[k].0 in oProb
    ensures Row(src, currScore, transitions[..j + 1], oProb, obs)
      == Row(src, currScore, transitions[..j], oProb, obs)
         + [MakeCandidate(src, currScore, transitions[j], oProb, obs)]
  {
    assert transitions[..j + 1][..j] == transitions[..j];
  }

  lemma {:induction false} FoldSnoc(cs: seq<Candidate>, c: Candidate)
    ensures Fold(cs + [c]) == Relax(Fold(cs), c)
  {
    assert (cs + [c])[..|cs|] == cs;
  }

  /** The body of decode's loop for one observation: both inner loops. */
  method Expand(currScores: OrderedMap<State, real>, tProb: Table, oProb: Table,
                observation: Observation) returns (r: Result<Layer, DecodeError>)
    ensures r == Step(currScores, tProb, oProb, observation)
  {
    var next := Layer([], []);
    var i := 0;
    while i < |currScores|
      invariant 0 <= i <= |currScores|
      invariant StepDefined(currScores[..i], tProb, oProb)
      invariant next == Fold(Cands(currScores[..i], tProb, oProb, observation))
    {
      var (currState, currScore) := currScores[i];
      if currState !in tProb {
        return Failure(NullPointer);
      }
      ghost var done := Cands(currScores[..i], tProb, oProb, observation);
      var row := ExpandState(currState, currScore, tProb[currState], oProb, observation, next, done);
      if row.Failure? {
        return Failure(NullPointer);
      }
      next := row.value;
      CandsSnoc(currScores, i, tProb, oProb, observation);
      i := i + 1;
    }
    assert currScores[..i] == currScores;
    r := Success(next);
  }

  lemma {:induction false} CandsSnoc(frontier: OrderedMap<State, real>, i: nat, tProb: Table, oProb: Table, obs: Observation)
    requires i < |frontier|
    requires StepDefined(frontier[..i], tProb, oProb)
    requires frontier[i].0 in tProb
    requires TargetsKnown(tProb[frontier[i].0], oProb)
    ensures StepDefined(frontier[..i + 1], tProb, oProb)
    ensures Cands(frontier[..i + 1], tProb, oProb, obs)
      == Cands(frontier[..i], tProb, oProb, obs)
         + Row(frontier[i].0, frontier[i].1, tProb[frontier[i].0], oProb, obs)
  {
    assert frontier[..i + 1][..i] == frontier[..i];
    forall k | 0 <= k <= i ensures frontier[..i + 1][k] == frontier[k] { }
  }

  /** The forward loop of decode: one Expand per observation, collecting the
      backpointer maps; nextScores stays empty when there is no observation. */
  method ForwardPass(tProb: Table, oProb: Table, observations: seq<Observation>)
    returns (r: Result<(OrderedMap<State, real>, seq<OrderedMap<State, State>>), DecodeError>,
             nextScores: OrderedMap<State, real>)
    ensures r == Run(tProb, oProb, observations)
    ensures r.Success? ==> nextScores == if observations == [] then [] else r.value.0
  {
    var currScores: OrderedMap<State, real> := [(Start, 0.0)];
    nextScores := [];
    var backTrack: seq<OrderedMap<State, State>> := [];
    var k := 0;
    while k < |observations|
      invariant 0 <= k <= |observations|
      invariant Run(tProb, oProb, observations[..k]) == Success((currScores, backTrack))
      invariant nextScores == if k == 0 then [] else currScores
    {
      var step := Expand(currScores, tProb, oProb, observations[k]);
      assert observations[..k + 1][..k] == observations[..k];
      if step.Failure? {
        RunPrefixFailure(tProb, oProb, observations, k + 1);
        return Failure(step.error), nextScores;
      }
      backTrack := backTrack + [step.value.back];
      currScores := step.value.scores;
      nextScores := step.value.scores;
      k := k + 1;
    }
    assert observations[..k] == observations;
    r := Success((currScores, backTrack));
  }

  /** decode: the forward pass, the final argmax, then the backtrace, which
      prepends each step's backpointer and finally drops the first element. */
  method Decode(tProb: Table, oProb: Table, observations: seq<Observation>)
    returns (r: Result<seq<Option<State>>, DecodeError>)
    ensures r == DecodeSpec(tProb, oProb, observations)
  {
    var forward, nextScores := ForwardPass(tProb, oProb, observations);
    if forward.Failure? {
      return Failure(forward.error);
    }
    var lastState := ReturnMax(nextScores);
    var decodedPOS := FollowBackpointers(forward.value.1, lastState);
    r := Success(decodedPOS[1..]);
  }

  /** The backtrace loop of decode: from the last step down to the first,
      prepend the backpointer of the state most recently prepended. */
  method FollowBackpointers(backTrack: seq<OrderedMap<State, State>>, lastState: State)
    returns (decodedPOS: seq<Option<State>>)
    ensures decodedPOS == Backtrace(backTrack, Some(lastState))
  {
    decodedPOS := [Some(lastState)];
    var last: Option<State> := Some(lastState);
    var i := |backTrack| - 1;
    assert backTrack[..i + 1] == backTrack;
    while i >= 0
      invariant -1 <= i < |backTrack|
      invariant |decodedPOS| >= 1 && decodedPOS[0] == last
      invariant Backtrace(backTrack[..i + 1], last) + decodedPOS[1..] == Backtrace(backTrack, Some(lastState))
    {
      var previous := Lookup(backTrack[i], last);
      BacktraceStep(backTrack, i, last, decodedPOS[1..]);
      assert decodedPOS == [last] + decodedPOS[1..];
      decodedPOS := [previous] + decodedPOS;
      last := previous;
      i := i - 1;
    }
  }

  /** One backpointer followed: the backtrace of one map fewer, then the state it leads to. */
  lemma BacktraceStep(backs: seq<OrderedMap<State, State>>, i: nat, last: Option<State>, after: seq<Option<State>>)
    requires i < |backs|
    ensures Backtrace(backs[..i + 1], last) + after
        == Backtrace(backs[..i], Lookup(backs[i], last)) + ([last] + after)
  {
    assert backs[..i + 1][..i] == backs[..i];
  }

  lemma {:induction false} RunPrefixFailure(tProb: Table, oProb: Table, observations: seq<Observation>, k: nat)
    requires k <= |observations|
    requires Run(tProb, oProb, observations[..k]).Failure?
    ensures Run(tProb, oProb, observations) == Run(tProb, oProb, observations[..k])
    decreases |observations| - k
  {
    if k == |observations| {
      assert observations[..k] == observations;
    } else {
      assert observations[..k + 1][..k] == observations[..k];
      RunPrefixFailure(tProb, oProb, observations, k + 1);
    }
  }

  // ---------------------------------------------------------------------------
  // consoleTestOutput
  // ---------------------------------------------------------------------------

  /** How building the output line can throw. */
  datatype OutputError = IndexOutOfBounds | NullTag

  /** The words, each followed by "/", its tag and a space. */
  function Tagged(words: seq<string>, tags: seq<State>): string
    requires |words| <= |tags|
  {
    if words == [] then ""
    else
      var n := |words| - 1;
      Tagged(words[..n], tags) + words[n] + "/" + tags[n] + " "
  }

  /** consoleTestOutput: appends word, "/", tag and a space for each word.
      decodedPOS.get(i) throws when the tags run out before the words, and
      concatenating a null tag throws, whichever happens first. */
  method ConsoleTestOutput(arr: seq<string>, decodedPOS: seq<Option<State>>)
    returns (r: Result<string, OutputError>)
    ensures r == Failure(NullTag) <==>
      exists i :: 0 <= i < |arr| && i < |decodedPOS| && decodedPOS[i].None?
    ensures r == Failure(IndexOutOfBounds) <==>
      |decodedPOS| < |arr| && forall i :: 0 <= i < |decodedPOS| ==> decodedPOS[i].Some?
    ensures r.Success? ==>
      |arr| <= |decodedPOS| &&
      r.value == Tagged(arr, seq(|arr|, i requires 0 <= i < |arr| => decodedPOS[i].value))
  {
    var s := "";
    ghost var tags: seq<State> := [];
    var i := 0;
    while i < |arr|
      invariant 0 <= i <= |arr| && i <= |decodedPOS|
      invariant |tags| == i && forall k :: 0 <= k < i ==> decodedPOS[k] == Some(tags[k])
      invariant s == Tagged(arr[..i], tags)
    {
      if i >= |decodedPOS| {
        return Failure(IndexOutOfBounds);
      }
      var tag := decodedPOS[i];
      if tag.None? {
        return Failure(NullTag);
      }
      assert arr[..i + 1][..i] == arr[..i];
      TaggedExtend(arr[..i], tags, tag.value);
      s := s + arr[i] + "/" + tag.value + " ";
      tags := tags + [tag.value];
      i := i + 1;
    }
    assert arr[..i] == arr;
    assert tags == seq(|arr|, i requires 0 <= i < |arr| => decodedPOS[i].value);
    r := Success(s);
  }

  /** Tagged reads only the tags of its words. */
  lemma {:induction false} TaggedExtend(words: seq<string>, tags: seq<State>, t: State)
    requires |words| <= |tags|
    ensures Tagged(words, tags + [t]) == Tagged(words, tags)
  {
    if words != [] {
      TaggedExtend(words[..|words| - 1], tags, t);
    }
  }
}
