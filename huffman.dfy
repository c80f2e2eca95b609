/**
 * The Huffman coder of ps3-huffman-encoding/HuffmanImplementation.java over
 * in-memory text and bit sequences.
 *
 * The tree type and its element (BinaryTree, CodeTreeElement) become the
 * datatype CodeTree: a leaf carries a character and its frequency, a merge node
 * the sum of its children's frequencies and no character. Java's priority queue
 * is a sequence used as a bag: removal takes a tree of least frequency, any one
 * of them, as PriorityQueue breaks ties in an unspecified way. Frequencies are
 * map<char, nat> (the source's TreeMap<Character, Long>; the order of its
 * entries only decides the order the trees enter the queue).
 */
module Huffman {
  import opened Wrappers

  datatype CodeTree =
    | Leaf(freq: nat, ch: char)
    | Node(freq: nat, left: CodeTree, right: CodeTree)

  type Frequencies = map<char, nat>

  /** getLeft: null on a leaf. */
  function Left(t: CodeTree): Option<CodeTree>
  {
    if t.Node? then Some(t.left) else None
  }

  /** getRight: null on a leaf. */
  function Right(t: CodeTree): Option<CodeTree>
  {
    if t.Node? then Some(t.right) else None
  }

  // ---------------------------------------------------------------------------
  // countFrequencies
  // ---------------------------------------------------------------------------

  /** The number of occurrences of every character of the text. */
  function Occurrences(text: seq<char>): (m: Frequencies)
    ensures forall c :: c in m <==> c in text
    ensures forall c :: c in m ==> m[c] == multiset(text)[c]
  {
    map c | c in multiset(text) :: multiset(text)[c]
  }

  /** The counting loop of countFrequencies, over the characters read. */
  method CountFrequencies(text: seq<char>) returns (frequencyTable: Frequencies)
    ensures frequencyTable == Occurrences(text)
  {
    frequencyTable := map[];
    var i := 0;
    while i < |text|
      invariant 0 <= i <= |text|
      invariant frequencyTable == Occurrences(text[..i])
    {
      var character := text[i];
      assert text[..i + 1] == text[..i] + [character];
      OccurrencesSnoc(text[..i], character);
      if character in frequencyTable {
        frequencyTable := frequencyTable[character := frequencyTable[character] + 1];
      } else {
        frequencyTable := frequencyTable[character := 1];
      }
      i := i + 1;
    }
    assert text[..i] == text;
  }

  /** One more character counts one more occurrence of it and changes no other count. */
  lemma OccurrencesSnoc(s: seq<char>, c: char)
    ensures Occurrences(s + [c]) ==
      Occurrences(s)[c := (if c in Occurrences(s) then Occurrences(s)[c] else 0) + 1]
  {
    assert multiset(s + [c]) == multiset(s) + multiset{c};
  }

  /** The sum of the frequencies of a table. */
  ghost function Total(m: Frequencies): nat
    decreases |m|
  {
    if m == map[] then 0
    else
      var k :| k in m;
      m[k] + Total(m - {k})
  }

  /** The sum does not depend on which key is taken first. */
  lemma {:induction false} TotalRemove(m: Frequencies, k: char)
    requires k in m
    ensures Total(m) == m[k] + Total(m - {k})
    decreases |m|
  {
    var k' :| k' in m && Total(m) == m[k'] + Total(m - {k'});
    if k' != k {
      TotalRemove(m - {k'}, k);
      TotalRemove(m - {k}, k');
      assert m - {k'} - {k} == m - {k} - {k'};
    }
  }

  // ---------------------------------------------------------------------------
  // The leaves and frequencies of trees and queues
  // ---------------------------------------------------------------------------

  /** The (character, frequency) pairs of the leaves. */
  function LeafBag(t: CodeTree): multiset<(char, nat)>
  {
    match t
    case Leaf(f, c) => multiset{(c, f)}
    case Node(_, l, r) => LeafBag(l) + LeafBag(r)
  }

  /** The leaves of all trees of a queue. */
  function QueueBag(q: seq<CodeTree>): multiset<(char, nat)>
  {
    if q == [] then multiset{} else QueueBag(q[..|q| - 1]) + LeafBag(q[|q| - 1])
  }

  /** The sum of the root frequencies of a queue. */
  function QueueFreq(q: seq<CodeTree>): nat
  {
    if q == [] then 0 else QueueFreq(q[..|q| - 1]) + q[|q| - 1].freq
  }

  /** A bag of leaves holds each entry of the table once and nothing else. */
  ghost predicate Matches(bag: multiset<(char, nat)>, m: Frequencies)
  {
    forall p :: bag[p] == if p.0 in m && m[p.0] == p.1 then 1 else 0
  }

  lemma {:induction false} QueueSnoc(q: seq<CodeTree>, t: CodeTree)
    ensures QueueBag(q + [t]) == QueueBag(q) + LeafBag(t)
    ensures QueueFreq(q + [t]) == QueueFreq(q) + t.freq
  {
    assert (q + [t])[..|q|] == q;
  }

  lemma {:induction false} QueueBagConcat(a: seq<CodeTree>, b: seq<CodeTree>)
    ensures QueueBag(a + b) == QueueBag(a) + QueueBag(b)
  {
    if b == [] {
      assert a + b == a;
    } else {
      var c, x := b[..|b| - 1], b[|b| - 1];
      var ab := a + b;
      assert ab[..|ab| - 1] == a + c && ab[|ab| - 1] == x;
      QueueBagLast(ab);
      QueueBagConcat(a, c);
      BagAssoc(QueueBag(a), QueueBag(c), LeafBag(x));
    }
  }

  lemma QueueFreqLast(q: seq<CodeTree>)
    requires q != []
    ensures QueueFreq(q) == QueueFreq(q[..|q| - 1]) + q[|q| - 1].freq
  {
  }

  lemma QueueBagLast(q: seq<CodeTree>)
    requires q != []
    ensures QueueBag(q) == QueueBag(q[..|q| - 1]) + LeafBag(q[|q| - 1])
  {
  }

  lemma BagAssoc(x: multiset<(char, nat)>, y: multiset<(char, nat)>, z: multiset<(char, nat)>)
    ensures x + (y + z) == (x + y) + z
  {
  }

  lemma {:induction false} QueueFreqConcat(a: seq<CodeTree>, b: seq<CodeTree>)
    ensures QueueFreq(a + b) == QueueFreq(a) + QueueFreq(b)
  {
    if b == [] {
      assert a + b == a;
    } else {
      var c, x := b[..|b| - 1], b[|b| - 1];
      var ab := a + b;
      assert ab[..|ab| - 1] == a + c && ab[|ab| - 1] == x;
      QueueFreqLast(ab);
      QueueFreqConcat(a, c);
    }
  }

  /** One more entry in a table: one more leaf, and its frequency added. */
  lemma {:induction false} AddEntry(bag: multiset<(char, nat)>, m: Frequencies, c: char, f: nat)
    requires c !in m && Matches(bag, m)
    ensures |m[c := f]| == |m| + 1
    ensures Matches(bag + multiset{(c, f)}, m[c := f])
    ensures Total(m[c := f]) == Total(m) + f
  {
    assert m[c := f].Keys == m.Keys + {c};
    AddMatches(bag, m, c, f);
    TotalPut(m, c, f);
  }

  /** Setting the frequency of c replaces its old frequency (none: zero) in the sum. */
  lemma TotalPut(m: Frequencies, c: char, f: nat)
    ensures Total(m[c := f]) == Total(m) - (if c in m then m[c] else 0) + f
  {
    TotalRemove(m[c := f], c);
    assert m[c := f] - {c} == m - {c};
    if c in m {
      TotalRemove(m, c);
    } else {
      assert m - {c} == m;
    }
  }

  lemma AddMatches(bag: multiset<(char, nat)>, m: Frequencies, c: char, f: nat)
    requires c !in m && Matches(bag, m)
    ensures Matches(bag + multiset{(c, f)}, m[c := f])
  {
    forall p
      ensures (bag + multiset{(c, f)})[p] == if p.0 in m[c := f] && m[c := f][p.0] == p.1 then 1 else 0
    {
      if p.0 == c {
        assert bag[p] == 0;
      }
    }
  }

  /** A tree the merging loop can build: every merge node's frequency is the
      sum of its children's, and its left child is the one taken first, so its
      frequency is not larger than the right child's. */
  predicate Built(t: CodeTree)
  {
    match t
    case Leaf(_, _) => true
    case Node(f, l, r) => f == l.freq + r.freq && l.freq <= r.freq && Built(l) && Built(r)
  }

  /** Every tree of the queue is one the loop can build. */
  ghost predicate AllBuilt(q: seq<CodeTree>)
  {
    forall j :: 0 <= j < |q| ==> Built(q[j])
  }

  // ---------------------------------------------------------------------------
  // initialTreeQueue and makeCodeTree
  // ---------------------------------------------------------------------------

  /** The queue holds one leaf for each entry of done, a part of the table. */
  ghost predicate Loaded(q: seq<CodeTree>, done: Frequencies, frequencies: Frequencies)
  {
    (forall k :: k in done ==> k in frequencies && done[k] == frequencies[k]) &&
    |q| == |done| &&
    (forall t :: t in q ==> t.Leaf? && t.ch in frequencies && t.freq == frequencies[t.ch]) &&
    Matches(QueueBag(q), done) && QueueFreq(q) == Total(done)
  }

  lemma {:induction false} LoadStep(q: seq<CodeTree>, done: Frequencies, frequencies: Frequencies, c: char)
    requires Loaded(q, done, frequencies) && c in frequencies && c !in done
    ensures Loaded(q + [Leaf(frequencies[c], c)], done[c := frequencies[c]], frequencies)
  {
    var e := Leaf(frequencies[c], c);
    AddEntry(QueueBag(q), done, c, frequencies[c]);
    QueueSnoc(q, e);
  }

  /** initialTreeQueue: one leaf per entry of the table. */
  method InitialTreeQueue(frequencies: Frequencies) returns (initialTrees: seq<CodeTree>)
    ensures |initialTrees| == |frequencies|
    ensures forall t :: t in initialTrees ==> t.Leaf? && t.ch in frequencies && t.freq == frequencies[t.ch]
    ensures Matches(QueueBag(initialTrees), frequencies)
    ensures QueueFreq(initialTrees) == Total(frequencies)
  {
    initialTrees := [];
    var todo := frequencies.Keys;
    ghost var done: Frequencies := map[];
    LoadedEmpty(frequencies);
    while todo != {}
      invariant todo !! done.Keys && todo + done.Keys == frequencies.Keys
      invariant Loaded(initialTrees, done, frequencies)
      decreases |todo|
    {
      var c :| c in todo;
      LoadStep(initialTrees, done, frequencies, c);
      initialTrees := initialTrees + [Leaf(frequencies[c], c)];
      done := done[c := frequencies[c]];
      todo := todo - {c};
    }
    LoadedAll(initialTrees, done, frequencies);
  }

  lemma {:induction false} LoadedEmpty(frequencies: Frequencies)
    ensures Loaded([], map[], frequencies)
  {
  }

  lemma {:induction false} LoadedAll(q: seq<CodeTree>, done: Frequencies, frequencies: Frequencies)
    requires Loaded(q, done, frequencies) && done.Keys == frequencies.Keys
    ensures done == frequencies
  {
  }

  /** A tree of least frequency in a non-empty queue. */
  lemma {:induction false} MinIndex(q: seq<CodeTree>) returns (i: int)
    requires q != []
    ensures 0 <= i < |q| && forall j :: 0 <= j < |q| ==> q[i].freq <= q[j].freq
  {
    var n := |q| - 1;
    if n == 0 {
      i := 0;
    } else {
      var k := MinIndex(q[..n]);
      assert forall j :: 0 <= j < n ==> q[..n][j] == q[j];
      i := if q[k].freq <= q[n].freq then k else n;
    }
  }

  /** PriorityQueue.remove: take out a tree of least frequency. */
  method RemoveMin(q: seq<CodeTree>) returns (t: CodeTree, rest: seq<CodeTree>)
    requires q != []
    ensures forall j :: 0 <= j < |q| ==> t.freq <= q[j].freq
    ensures |rest| == |q| - 1
    ensures multiset(q) == multiset(rest) + multiset{t}
    ensures QueueBag(q) == QueueBag(rest) + LeafBag(t)
    ensures QueueFreq(q) == QueueFreq(rest) + t.freq
  {
    var m := MinIndex(q);
    var i :| 0 <= i < |q| && forall j :: 0 <= j < |q| ==> q[i].freq <= q[j].freq;
    t := q[i];
    rest := q[..i] + q[i + 1..];
    assert q == (q[..i] + [t]) + q[i + 1..];
    QueueBagConcat(q[..i] + [t], q[i + 1..]);
    QueueFreqConcat(q[..i] + [t], q[i + 1..]);
    QueueSnoc(q[..i], t);
    QueueBagConcat(q[..i], q[i + 1..]);
    QueueFreqConcat(q[..i], q[i + 1..]);
  }

  /** Every tree of a sub-bag is a tree of the whole. */
  lemma {:induction false} Within(q: seq<CodeTree>, rest: seq<CodeTree>, t: CodeTree, j: int) returns (k: int)
    requires multiset(q) == multiset(rest) + multiset{t}
    requires 0 <= j < |rest|
    ensures 0 <= k < |q| && q[k] == rest[j]
  {
    assert rest[j] in multiset(rest);
    assert rest[j] in multiset(q);
    k :| 0 <= k < |q| && q[k] == rest[j];
  }

  /** The two removals of one round of makeCodeTree's loop: t1 is a lightest
      tree of the queue and t2 a lightest one of what is left. */
  method RemoveTwo(q: seq<CodeTree>) returns (t1: CodeTree, t2: CodeTree, rest: seq<CodeTree>)
    requires |q| > 1
    ensures forall j :: 0 <= j < |q| ==> t1.freq <= q[j].freq
    ensures forall j :: 0 <= j < |rest| ==> t2.freq <= rest[j].freq
    ensures t1.freq <= t2.freq
    ensures multiset(q) == multiset(rest) + multiset{t1, t2} && |rest| == |q| - 2
    ensures AllBuilt(q) ==> AllBuilt(rest) && Built(t1) && Built(t2)
    ensures QueueBag(q) == QueueBag(rest) + LeafBag(t1) + LeafBag(t2)
    ensures QueueFreq(q) == QueueFreq(rest) + t1.freq + t2.freq
  {
    var q1;
    t1, q1 := RemoveMin(q);
    t2, rest := RemoveMin(q1);
    RemoveTwoFacts(q, q1, rest, t1, t2);
  }

  lemma {:induction false} RemoveTwoFacts(q: seq<CodeTree>, q1: seq<CodeTree>, q2: seq<CodeTree>, t1: CodeTree, t2: CodeTree)
    requires multiset(q) == multiset(q1) + multiset{t1}
    requires multiset(q1) == multiset(q2) + multiset{t2}
    requires forall j :: 0 <= j < |q| ==> t1.freq <= q[j].freq
    requires forall j :: 0 <= j < |q1| ==> t2.freq <= q1[j].freq
    ensures multiset(q) == multiset(q2) + multiset{t1, t2}
    ensures forall j :: 0 <= j < |q2| ==> t2.freq <= q2[j].freq
    ensures t1.freq <= t2.freq
    ensures AllBuilt(q) ==> AllBuilt(q2) && Built(t1) && Built(t2)
  {
    forall j | 0 <= j < |q2|
      ensures t2.freq <= q2[j].freq
    {
      var k := Within(q1, q2, t2, j);
    }
    assert t1 in multiset(q) && t2 in multiset(q);
    var k1 :| 0 <= k1 < |q| && q[k1] == t1;
    var k2 :| 0 <= k2 < |q| && q[k2] == t2;
    if AllBuilt(q) {
      forall j | 0 <= j < |q2|
        ensures Built(q2[j])
      {
        var k := Within(q1, q2, t2, j);
        var k' := Within(q, q1, t1, k);
      }
    }
  }

  lemma {:induction false} AllBuiltSnoc(q: seq<CodeTree>, t: CodeTree)
    requires AllBuilt(q) && Built(t)
    ensures AllBuilt(q + [t])
  {
    assert forall j :: 0 <= j < |q| ==> (q + [t])[j] == q[j];
  }

  /** makeCodeTree: null for an empty table; otherwise merge the two lightest
      trees, the first taken as the left child, until one tree is left. */
  method MakeCodeTree(frequencies: Frequencies) returns (r: Option<CodeTree>)
    ensures r.None? <==> frequencies == map[]
    ensures r.Some? ==>
      Built(r.value) && Matches(LeafBag(r.value), frequencies) && r.value.freq == Total(frequencies)
  {
    var q := InitialTreeQueue(frequencies);
    if |q| == 0 {
      assert frequencies == map[];
      return None;
    }
    assert forall j :: 0 <= j < |q| ==> q[j] in q;
    while |q| > 1
      invariant |q| >= 1
      invariant AllBuilt(q)
      invariant Matches(QueueBag(q), frequencies)
      invariant QueueFreq(q) == Total(frequencies)
      decreases |q|
    {
      var t1, t2, rest := RemoveTwo(q);
      var t := Node(t1.freq + t2.freq, t1, t2);
      QueueSnoc(rest, t);
      AllBuiltSnoc(rest, t);
      q := rest + [t];
    }
    QueueSnoc([], q[0]);
    assert q == [] + [q[0]];
    assert Built(q[0]);
    assert frequencies != map[] by {
      assert |frequencies| > 0;
    }
    r := Some(q[0]);
  }

  // ---------------------------------------------------------------------------
  // computeCodes and traverseCodeTree
  // ---------------------------------------------------------------------------

  /** The characters at the leaves. */
  function Chars(t: CodeTree): set<char>
  {
    match t
    case Leaf(_, c) => {c}
    case Node(_, l, r) => Chars(l) + Chars(r)
  }

  /** The root-to-leaf path of a character: '0' for left, '1' for right. Where
      a character labels leaves on both sides the right one is taken, as its
      entry is put into the code map last. */
  function CodeOf(t: CodeTree, c: char): (code: string)
    requires c in Chars(t)
  {
    match t
    case Leaf(_, _) => ""
    case Node(_, l, r) => if c in Chars(r) then "1" + CodeOf(r, c) else "0" + CodeOf(l, c)
  }

  /** traverseCodeTree: walk the tree with the code of the path so far and put
      each leaf's code into the map, the left subtree before the right. */
  function Traverse(t: CodeTree, code: string, codeMap: map<char, string>): map<char, string>
  {
    match t
    case Leaf(_, c) => codeMap[c := code]
    case Node(_, l, r) => Traverse(r, code + "1", Traverse(l, code + "0", codeMap))
  }

  /** computeCodes: no codes for a null tree, "0" for a one-leaf tree, the
      paths otherwise. */
  function ComputeCodes(codeTree: Option<CodeTree>): map<char, string>
  {
    match codeTree
    case None => map[]
    case Some(Leaf(_, c)) => map[c := "0"]
    case Some(t) => Traverse(t, "", map[])
  }

  // ---------------------------------------------------------------------------
  // compressFile and decompressFile, over sequences of bits
  // ---------------------------------------------------------------------------

  /** codeMap.get(key).length() on a character without a code. */
  datatype CompressError = NullPointer

  /** The bits of one code: true for '1', false for any other character. */
  function Bits(code: string): (bits: seq<bool>)
    ensures |bits| == |code| && forall i :: 0 <= i < |code| ==> bits[i] == (code[i] == '1')
  {
    seq(|code|, i requires 0 <= i < |code| => code[i] == '1')
  }

  /** The bits compressFile writes: the codes of the characters, in order. */
  function Encoded(text: seq<char>, codeMap: map<char, string>): seq<bool>
    requires forall i :: 0 <= i < |text| ==> text[i] in codeMap
  {
    if text == [] then []
    else Encoded(text[..|text| - 1], codeMap) + Bits(codeMap[text[|text| - 1]])
  }

  /** The bit loops of compressFile. */
  method Compress(codeMap: map<char, string>, text: seq<char>) returns (r: Result<seq<bool>, CompressError>)
    ensures r.Failure? <==> exists i :: 0 <= i < |text| && text[i] !in codeMap
    ensures r.Success? ==> r.value == Encoded(text, codeMap)
  {
    var bitOutput := [];
    var n := 0;
    while n < |text|
      invariant 0 <= n <= |text|
      invariant forall i :: 0 <= i < n ==> text[i] in codeMap
      invariant bitOutput == Encoded(text[..n], codeMap)
    {
      var key := text[n];
      if key !in codeMap {
        return Failure(NullPointer);
      }
      var code := codeMap[key];
      assert text[..n + 1][..n] == text[..n];
      ghost var prefix := bitOutput;
      var i := 0;
      while i < |code|
        invariant 0 <= i <= |code|
        invariant bitOutput == prefix + Bits(code)[..i]
      {
        var bit := code[i] == '1';
        assert Bits(code)[..i + 1] == Bits(code)[..i] + [bit];
        bitOutput := bitOutput + [bit];
        i := i + 1;
      }
      assert Bits(code)[..i] == Bits(code);
      n := n + 1;
    }
    assert text[..n] == text;
    r := Success(bitOutput);
  }

  /** The walk of decompressFile through a tree of several leaves: each bit
      moves the cursor right (true) or left (false); a leaf writes its
      character and returns the cursor to the root; a null cursor ignores
      every later bit. */
  function Walk(bits: seq<bool>, original: CodeTree, codeTree: Option<CodeTree>): seq<char>
  {
    if bits == [] || codeTree.None? then []
    else
      var next := if bits[0] then Right(codeTree.value) else Left(codeTree.value);
      if next.Some? && next.value.Leaf? then [next.value.ch] + Walk(bits[1..], original, Some(original))
      else Walk(bits[1..], original, next)
  }

  /** What decompressFile writes: nothing for a null tree, the one character
      once per bit for a one-leaf tree, the walk otherwise. */
  function Decoded(bits: seq<bool>, codeTree: Option<CodeTree>): seq<char>
  {
    match codeTree
    case None => []
    case Some(Leaf(_, c)) => seq(|bits|, _ => c)
    case Some(t) => Walk(bits, t, Some(t))
  }

  /** One bit of the walk from cursor: it moves to a child, and a leaf writes
      its character and sends the walk back to the root. */
  lemma WalkOne(bits: seq<bool>, k: nat, original: CodeTree, cursor: CodeTree)
    requires k < |bits|
    ensures var next := if bits[k] then Right(cursor) else Left(cursor);
      Walk(bits[k..], original, Some(cursor)) ==
        if next.Some? && next.value.Leaf? then [next.value.ch] + Walk(bits[k + 1..], original, Some(original))
        else Walk(bits[k + 1..], original, next)
  {
    assert bits[k..][1..] == bits[k + 1..];
  }

  lemma RepeatSnoc(c: char, k: nat)
    ensures seq(k + 1, _ => c) == seq(k, _ => c) + [c]
  {
  }

  /** The bit loop of decompressFile, with its cursor codeTree. */
  method Decompress(bits: seq<bool>, tree: Option<CodeTree>) returns (output: seq<char>)
    ensures output == Decoded(bits, tree)
  {
    output := [];
    var original := tree;
    var codeTree := tree;
    var k := 0;
    while k < |bits|
      invariant Decoding(bits, k, original, codeTree, output)
      decreases |bits| - k
    {
      codeTree, output := DecompressBit(bits, k, original, codeTree, output);
      k := k + 1;
    }
    assert bits[k..] == [];
  }

  /** The state of the bit loop after k bits: nothing for a null tree, the
      character once per bit for a one-leaf tree, and otherwise what is written
      followed by the walk of the remaining bits from the cursor is the walk
      of all bits. */
  ghost predicate Decoding(bits: seq<bool>, k: nat, original: Option<CodeTree>, codeTree: Option<CodeTree>,
                           output: seq<char>)
  {
    k <= |bits| &&
    match original
    case None => codeTree.None? && output == []
    case Some(Leaf(_, c)) => codeTree == original && output == seq(k, _ => c)
    case Some(t) => output + Walk(bits[k..], t, codeTree) == Walk(bits, t, Some(t))
  }

  /** One pass of the bit loop of decompressFile: move the cursor along the
      bit, and at a leaf write its character and go back to the root. */
  method DecompressBit(bits: seq<bool>, k: nat, original: Option<CodeTree>, codeTree: Option<CodeTree>,
                       output: seq<char>)
    returns (codeTree': Option<CodeTree>, output': seq<char>)
    requires k < |bits| && Decoding(bits, k, original, codeTree, output)
    ensures Decoding(bits, k + 1, original, codeTree', output')
  {
    codeTree', output' := codeTree, output;
    var bit := bits[k];
    if codeTree'.Some? {
      if original.value.Leaf? {
        RepeatSnoc(original.value.ch, k);
        output' := output' + [original.value.ch];
      } else {
        WalkOne(bits, k, original.value, codeTree'.value);
        if bit {
          codeTree' := Right(codeTree'.value);
        } else {
          codeTree' := Left(codeTree'.value);
        }
        if codeTree'.Some? {
          if codeTree'.value.Leaf? {
            output' := output' + [codeTree'.value.ch];
            codeTree' := original;
            assert output + ([output'[|output'| - 1]] + Walk(bits[k + 1..], original.value, codeTree'))
                == output' + Walk(bits[k + 1..], original.value, codeTree');
          }
        }
      }
    }
  }
}
