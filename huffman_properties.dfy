/**
 * What the Huffman coder guarantees: the frequencies add up to the length of
 * the text, every character of a tree gets its root-to-leaf path as code, the
 * codes of a tree of several leaves are non-empty and none is a prefix of
 * another, and decompressing what compressing wrote gives the text back.
 */
module HuffmanProperties {
  import opened Wrappers
  import opened Huffman

  // ---------------------------------------------------------------------------
  // Frequencies
  // ---------------------------------------------------------------------------

  /** The frequencies of a text add up to its length. */
  lemma {:induction false} OccurrencesTotal(text: seq<char>)
    ensures Total(Occurrences(text)) == |text|
  {
    if text != [] {
      var s, c := text[..|text| - 1], text[|text| - 1];
      assert text == s + [c];
      OccurrencesTotal(s);
      OccurrencesSnoc(s, c);
      var m := Occurrences(s);
      TotalPut(m, c, (if c in m then m[c] else 0) + 1);
    }
  }

  // ---------------------------------------------------------------------------
  // Codes
  // ---------------------------------------------------------------------------

  /** traverseCodeTree adds the characters of the tree to the keys. */
  lemma {:induction false} TraverseKeys(t: CodeTree, code: string, codeMap: map<char, string>)
    ensures Traverse(t, code, codeMap).Keys == codeMap.Keys + Chars(t)
  {
    match t
    case Leaf(_, _) =>
    case Node(_, l, r) =>
      TraverseKeys(l, code + "0", codeMap);
      TraverseKeys(r, code + "1", Traverse(l, code + "0", codeMap));
  }

  /** traverseCodeTree leaves the entries of other characters alone. */
  lemma {:induction false} TraverseKeeps(t: CodeTree, code: string, codeMap: map<char, string>, c: char)
    requires c !in Chars(t) && c in codeMap
    ensures c in Traverse(t, code, codeMap) && Traverse(t, code, codeMap)[c] == codeMap[c]
  {
    match t
    case Leaf(_, _) =>
    case Node(_, l, r) =>
      TraverseKeeps(l, code + "0", codeMap, c);
      TraverseKeeps(r, code + "1", Traverse(l, code + "0", codeMap), c);
  }

  /** traverseCodeTree gives every character of the tree its path, after the
      code so far. */
  lemma {:induction false} TraverseCodes(t: CodeTree, code: string, codeMap: map<char, string>, c: char)
    requires c in Chars(t)
    ensures c in Traverse(t, code, codeMap) && Traverse(t, code, codeMap)[c] == code + CodeOf(t, c)
  {
    match t
    case Leaf(_, _) =>
    case Node(_, l, r) =>
      var m := Traverse(l, code + "0", codeMap);
      if c in Chars(r) {
        TraverseCodes(r, code + "1", m, c);
        assert (code + "1") + CodeOf(r, c) == code + ("1" + CodeOf(r, c));
      } else {
        TraverseCodes(l, code + "0", codeMap, c);
        TraverseKeeps(r, code + "1", m, c);
        assert (code + "0") + CodeOf(l, c) == code + ("0" + CodeOf(l, c));
      }
  }

  /** computeCodes: no codes without a tree, "0" for the character of a
      one-leaf tree, and otherwise exactly the characters of the tree, each
      with its root-to-leaf path. */
  lemma {:induction false} ComputeCodesPaths(codeTree: Option<CodeTree>)
    ensures codeTree.None? ==> ComputeCodes(codeTree) == map[]
    ensures codeTree.Some? && codeTree.value.Leaf? ==> ComputeCodes(codeTree) == map[codeTree.value.ch := "0"]
    ensures codeTree.Some? && codeTree.value.Node? ==>
      ComputeCodes(codeTree).Keys == Chars(codeTree.value) &&
      forall c :: c in Chars(codeTree.value) ==> ComputeCodes(codeTree)[c] == CodeOf(codeTree.value, c)
  {
    if codeTree.Some? && codeTree.value.Node? {
      TraverseKeys(codeTree.value, "", map[]);
      forall c | c in Chars(codeTree.value)
        ensures ComputeCodes(codeTree)[c] == CodeOf(codeTree.value, c)
      {
        TraverseCodes(codeTree.value, "", map[], c);
        assert "" + CodeOf(codeTree.value, c) == CodeOf(codeTree.value, c);
      }
    }
  }

  /** The paths of two different characters: neither is a prefix of the other. */
  lemma {:induction false} PathsPrefixFree(t: CodeTree, c1: char, c2: char)
    requires c1 in Chars(t) && c2 in Chars(t) && c1 != c2
    ensures !(CodeOf(t, c1) <= CodeOf(t, c2))
  {
    match t
    case Leaf(_, _) =>
    case Node(_, l, r) =>
      var p1, p2 := CodeOf(t, c1), CodeOf(t, c2);
      if c1 in Chars(r) && c2 in Chars(r) {
        PathsPrefixFree(r, c1, c2);
        assert p1[1..] == CodeOf(r, c1) && p2[1..] == CodeOf(r, c2);
      } else if c1 !in Chars(r) && c2 !in Chars(r) {
        PathsPrefixFree(l, c1, c2);
        assert p1[1..] == CodeOf(l, c1) && p2[1..] == CodeOf(l, c2);
      } else {
        assert p1[0] != p2[0];
      }
  }

  /** For a tree of several leaves every code is non-empty and no code is a
      prefix of another. */
  lemma {:induction false} CodesPrefixFree(t: CodeTree)
    requires t.Node?
    ensures forall c :: c in ComputeCodes(Some(t)) ==> |ComputeCodes(Some(t))[c]| > 0
    ensures forall c1, c2 :: c1 in ComputeCodes(Some(t)) && c2 in ComputeCodes(Some(t)) && c1 != c2 ==>
      !(ComputeCodes(Some(t))[c1] <= ComputeCodes(Some(t))[c2])
  {
    ComputeCodesPaths(Some(t));
    forall c1, c2 | c1 in ComputeCodes(Some(t)) && c2 in ComputeCodes(Some(t)) && c1 != c2
      ensures !(ComputeCodes(Some(t))[c1] <= ComputeCodes(Some(t))[c2])
    {
      PathsPrefixFree(t, c1, c2);
    }
  }

  // ---------------------------------------------------------------------------
  // The round trip
  // ---------------------------------------------------------------------------

  /** Walking the path of a character from a merge node writes that
      character and returns the cursor to the root. */
  lemma {:induction false} WalkPath(root: CodeTree, sub: CodeTree, c: char, rest: seq<bool>)
    requires sub.Node? && c in Chars(sub)
    ensures Walk(Bits(CodeOf(sub, c)) + rest, root, Some(sub)) == [c] + Walk(rest, root, Some(root))
  {
    var b := c in Chars(sub.right);
    var child := if b then sub.right else sub.left;
    var tail := Bits(CodeOf(child, c)) + rest;
    CodeHead(sub, c);
    BitsCons(if b then '1' else '0', CodeOf(child, c), rest);
    WalkStep(root, sub, b, tail);
    if child.Leaf? {
      assert CodeOf(child, c) == [] && child.ch == c;
      assert tail == rest;
    } else {
      WalkPath(root, child, c, rest);
    }
  }

  /** The path of a character from a merge node starts with the branch taken there. */
  lemma CodeHead(sub: CodeTree, c: char)
    requires sub.Node? && c in Chars(sub)
    ensures var b := c in Chars(sub.right);
      CodeOf(sub, c) == [if b then '1' else '0'] + CodeOf(if b then sub.right else sub.left, c)
  {
  }

  /** The bits of a code and what follows it: the first bit, then the rest. */
  lemma BitsCons(h: char, path: string, rest: seq<bool>)
    ensures Bits([h] + path) + rest == [h == '1'] + (Bits(path) + rest)
  {
    assert forall i :: 0 <= i < |path| ==> ([h] + path)[i + 1] == path[i];
  }

  /** One bit of the walk from a merge node: a leaf writes its character and
      returns to the root, a merge node becomes the cursor. */
  lemma WalkStep(root: CodeTree, sub: CodeTree, b: bool, tail: seq<bool>)
    requires sub.Node?
    ensures var child := if b then sub.right else sub.left;
      Walk([b] + tail, root, Some(sub)) ==
        if child.Leaf? then [child.ch] + Walk(tail, root, Some(root)) else Walk(tail, root, Some(child))
  {
    assert ([b] + tail)[1..] == tail;
  }

  /** Walking the encoding of a text writes the text. */
  lemma {:induction false} WalkEncoded(t: CodeTree, text: seq<char>, rest: seq<bool>)
    requires t.Node?
    requires forall i :: 0 <= i < |text| ==> text[i] in ComputeCodes(Some(t))
    ensures Walk(Encoded(text, ComputeCodes(Some(t))) + rest, t, Some(t)) == text + Walk(rest, t, Some(t))
  {
    if text != [] {
      var codes := ComputeCodes(Some(t));
      var s, c := text[..|text| - 1], text[|text| - 1];
      ComputeCodesPaths(Some(t));
      var b := Bits(codes[c]);
      EncodedSnoc(text, codes, rest);
      WalkEncoded(t, s, b + rest);
      assert c in Chars(t);
      assert b == Bits(CodeOf(t, c));
      WalkPath(t, t, c, rest);
      SnocThen(text, Walk(rest, t, Some(t)));
    } else {
      assert Encoded(text, ComputeCodes(Some(t))) + rest == rest;
    }
  }

  /** The bits of a text and what follows: those of all but the last
      character, then the last character's code and what follows. */
  lemma EncodedSnoc(text: seq<char>, codes: map<char, string>, rest: seq<bool>)
    requires text != [] && forall i :: 0 <= i < |text| ==> text[i] in codes
    ensures Encoded(text, codes) + rest ==
      Encoded(text[..|text| - 1], codes) + (Bits(codes[text[|text| - 1]]) + rest)
  {
  }

  lemma SnocThen<T>(s: seq<T>, t: seq<T>)
    requires s != []
    ensures s[..|s| - 1] + ([s[|s| - 1]] + t) == s + t
  {
    assert s == s[..|s| - 1] + [s[|s| - 1]];
  }

  /** The one-leaf case writes one '0' per character. */
  lemma {:induction false} EncodedOneLeaf(text: seq<char>, c: char)
    requires forall i :: 0 <= i < |text| ==> text[i] == c
    ensures Encoded(text, map[c := "0"]) == seq(|text|, _ => false)
  {
    if text != [] {
      EncodedOneLeaf(text[..|text| - 1], c);
    }
  }

  /** Decompressing with a tree what was compressed with its codes gives the
      text back: nothing without a tree, the one character once per bit for a
      one-leaf tree, the walk otherwise. */
  lemma {:induction false} RoundTrip(text: seq<char>, codeTree: Option<CodeTree>)
    requires forall i :: 0 <= i < |text| ==> text[i] in ComputeCodes(codeTree)
    ensures Decoded(Encoded(text, ComputeCodes(codeTree)), codeTree) == text
  {
    match codeTree
    case None =>
    case Some(Leaf(_, c)) =>
      EncodedOneLeaf(text, c);
    case Some(t) =>
      WalkEncoded(t, text, []);
      assert Encoded(text, ComputeCodes(codeTree)) + [] == Encoded(text, ComputeCodes(codeTree));
  }

  // ---------------------------------------------------------------------------
  // The whole of compressAndDecompress
  // ---------------------------------------------------------------------------

  lemma {:induction false} LeafChars(t: CodeTree, p: (char, nat))
    requires p in LeafBag(t)
    ensures p.0 in Chars(t)
  {
    match t
    case Leaf(_, _) =>
    case Node(_, l, r) =>
      if p in LeafBag(l) {
        LeafChars(l, p);
      } else {
        LeafChars(r, p);
      }
  }

  /** With the tree makeCodeTree builds from a text's frequencies, every
      character of the text has a code, so compressing succeeds, the root's
      frequency is the length of the text, and decompressing gives the text
      back. */
  lemma {:induction false} CompressAndDecompress(text: seq<char>, codeTree: Option<CodeTree>)
    requires codeTree.None? <==> Occurrences(text) == map[]
    requires codeTree.Some? ==>
      Matches(LeafBag(codeTree.value), Occurrences(text)) && codeTree.value.freq == Total(Occurrences(text))
    ensures forall i :: 0 <= i < |text| ==> text[i] in ComputeCodes(codeTree)
    ensures codeTree.Some? ==> codeTree.value.freq == |text|
    ensures Decoded(Encoded(text, ComputeCodes(codeTree)), codeTree) == text
  {
    OccurrencesTotal(text);
    var m := Occurrences(text);
    if codeTree.Some? {
      var t := codeTree.value;
      ComputeCodesPaths(codeTree);
      forall i | 0 <= i < |text|
        ensures text[i] in ComputeCodes(codeTree)
      {
        var c := text[i];
        assert LeafBag(t)[(c, m[c])] == 1;
        LeafChars(t, (c, m[c]));
      }
    }
    RoundTrip(text, codeTree);
  }
}
