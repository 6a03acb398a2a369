/** The 26-way trie of benchmarks/trie.rs. */
module TrieBench {
  type Word = seq<char>

  predicate Letter(c: char) {
    'a' <= c <= 'z'
  }

  predicate Lowercase(w: Word) {
    forall i :: 0 <= i < |w| ==> Letter(w[i])
  }

  function Idx(c: char): (i: nat)
    requires Letter(c)
    ensures i < 26
  {
    c as int - 'a' as int
  }

  class TrieNode {
    const children: array<TrieNode?>
    var isWord: bool

    constructor ()
      ensures fresh(children) && children.Length == 26 && !isWord
      ensures forall i :: 0 <= i < 26 ==> children[i] == null
    {
      children := new TrieNode?[26](_ => null);
      isWord := false;
    }
  }

  type Paths = map<Word, TrieNode>

  ghost function Arrays(nodes: Paths): set<object> {
    set p | p in nodes :: nodes[p].children
  }

  /** The child slots of the node at `p` lead to the nodes at `p` and one letter more. */
  ghost predicate Linked(nodes: Paths, p: Word)
    requires p in nodes
    reads nodes[p].children
  {
    && nodes[p].children.Length == 26
    && forall c :: Letter(c) ==>
         nodes[p].children[Idx(c)] == if p + [c] in nodes then nodes[p + [c]] else null
  }

  /** No node and no child array sits at two places. */
  ghost predicate Separate(nodes: Paths) {
    forall p, q :: p in nodes && q in nodes && p != q ==>
      nodes[p] != nodes[q] && nodes[p].children != nodes[q].children
  }

  ghost predicate PrefixClosed(nodes: Paths) {
    [] in nodes && forall p, i :: p in nodes && 0 <= i <= |p| ==> p[..i] in nodes
  }

  /** Old paths lead where they led; new ones are prefixes of the word. */
  ghost predicate Extended(before: Paths, after: Paths, word: Word) {
    && (forall p :: p in before ==> p in after && after[p] == before[p])
    && (forall p :: p in after && p !in before ==> p <= word)
  }

  /** Every path but the empty one is on the way to a word. */
  predicate Trim(paths: set<Word>, words: set<Word>) {
    forall p | p in paths && p != [] :: exists w | w in words :: p <= w
  }

  lemma TrimAfter(before: Paths, after: Paths, words: set<Word>, word: Word)
    requires Extended(before, after, word) && Trim(before.Keys, words)
    ensures Trim(after.Keys, words + {word})
  {
    forall p | p in after && p != []
      ensures exists w | w in words + {word} :: p <= w
    {
      if p in before {
        var w :| w in words && p <= w;
        assert w in words + {word};
      } else {
        assert word in words + {word};
      }
    }
  }

  /** A trie below `root`, with every node known by its path. */
  class Trie {
    const root: TrieNode
    ghost var nodes: Paths

    ghost predicate Valid()
      reads this, Arrays(nodes)
    {
      && PrefixClosed(nodes)
      && nodes[[]] == root
      && Separate(nodes)
      && forall p :: p in nodes ==> Linked(nodes, p)
    }

    ghost function Words(): set<Word>
      reads this, nodes.Values
    {
      set p | p in nodes && nodes[p].isWord
    }

    constructor ()
      ensures Valid() && Trim(nodes.Keys, Words()) && Words() == {}
      ensures forall p :: p in nodes ==> fresh(nodes[p]) && fresh(nodes[p].children)
    {
      var r := new TrieNode();
      root := r;
      nodes := map[[] := r];
    }

    /** Hangs a new node below the one at `p`. */
    method Grow(ghost p: Word, curr: TrieNode, c: char) returns (child: TrieNode)
      requires Valid() && p in nodes && nodes[p] == curr && Letter(c) && p + [c] !in nodes
      modifies `nodes, curr.children
      ensures Valid() && nodes == old(nodes)[p + [c] := child]
      ensures fresh(child) && fresh(child.children) && !child.isWord
    {
      RootAt();
      hide PrefixClosed, Separate;
      child := new TrieNode();
      curr.children[Idx(c)] := child;
      ghost var before := nodes;
      nodes := nodes[p + [c] := child];
      assert forall q :: q in before ==> nodes[q] == before[q];
      Closed(before, p, c, child);
      StillSeparate(before, p + [c], child);
      forall q | q in nodes
        ensures Linked(nodes, q)
      {
        if q == p + [c] {
          NothingBelow(before, p, c);
        } else {
          assert old(Linked(nodes, q));
          SeparateAt(before, q, p);
          OneWayThere(q, p, c);
        }
      }
    }

    lemma RootAt()
      requires Valid()
      ensures [] in nodes && nodes[[]] == root
    {
    }

    lemma ChildAt(p: Word, c: char)
      requires Valid() && p in nodes && Letter(c)
      ensures nodes[p].children.Length == 26
      ensures nodes[p].children[Idx(c)] == if p + [c] in nodes then nodes[p + [c]] else null
    {
      assert Linked(nodes, p);
    }

    /** The loop of an insertion: goes down along the word and grows what is missing. */
    method Descend(word: Word) returns (curr: TrieNode)
      requires Valid() && Lowercase(word)
      modifies `nodes, Arrays(nodes)
      ensures Valid() && word in nodes && curr == nodes[word]
      ensures Extended(old(nodes), nodes, word)
      ensures forall p :: p in nodes && p !in old(nodes) ==>
                fresh(nodes[p]) && fresh(nodes[p].children) && !nodes[p].isWord
    {
      hide Trie.Valid, Separate, Linked, PrefixClosed;
      curr := root;
      RootAt();
      ghost var before := nodes;
      for i := 0 to |word|
        invariant Valid()
        invariant word[..i] in nodes && curr == nodes[word[..i]]
        invariant Extended(before, nodes, word)
        invariant forall p :: p in nodes && p !in before ==>
                    fresh(nodes[p]) && fresh(nodes[p].children) && !nodes[p].isWord
      {
        var c := word[i];
        assert word[..i + 1] == word[..i] + [c];
        ChildAt(word[..i], c);
        var next := curr.children[Idx(c)];
        if next == null {
          curr := Grow(word[..i], curr, c);
        } else {
          curr := next;
        }
      }
      assert word[..|word|] == word;
    }

    method Insert(word: Word)
      requires Valid() && Trim(nodes.Keys, Words()) && Lowercase(word)
      modifies `nodes, nodes.Values, Arrays(nodes)
      ensures Valid() && Trim(nodes.Keys, Words())
      ensures Words() == old(Words()) + {word}
      ensures Extended(old(nodes), nodes, word)
      ensures forall p :: p in nodes && p !in old(nodes) ==> fresh(nodes[p]) && fresh(nodes[p].children)
    {
      hide PrefixClosed, Linked, Trim;
      ghost var words := Words();
      var curr := Descend(word);
      TrimAfter(old(nodes), nodes, words, word);
      ghost var before := old(nodes);
      assert forall p :: p in before ==> nodes[p].isWord == old(nodes[p].isWord);
      curr.isWord := true;
      assert forall p :: p in nodes && p != word ==> nodes[p] != curr;
      assert Words() == words + {word};
    }

    method Search(word: Word) returns (found: bool)
      requires Valid() && Lowercase(word)
      ensures found <==> word in Words()
      ensures Valid()
    {
      var curr := root;
      for i := 0 to |word|
        invariant word[..i] in nodes && curr == nodes[word[..i]]
      {
        var c := word[i];
        assert word[..i + 1] == word[..i] + [c];
        assert Linked(nodes, word[..i]);
        var next := curr.children[Idx(c)];
        if next == null {
          return false;
        }
        curr := next;
      }
      assert word[..|word|] == word;
      return curr.isWord;
    }
  }

  lemma OneWayThere(q: Word, p: Word, c: char)
    ensures forall d :: q + [d] == p + [c] <==> q == p && d == c
  {
    forall d
      ensures q + [d] == p + [c] <==> q == p && d == c
    {
      if q + [d] == p + [c] {
        assert (q + [d])[|q|] == d && (p + [c])[|p|] == c;
        assert (q + [d])[..|q|] == q && (p + [c])[..|p|] == p;
      }
    }
  }

  lemma SeparateAt(nodes: Paths, q: Word, p: Word)
    requires Separate(nodes) && q in nodes && p in nodes
    ensures q != p ==> nodes[q].children != nodes[p].children
  {
  }

  lemma StillSeparate(nodes: Paths, p: Word, child: TrieNode)
    requires Separate(nodes) && p !in nodes
    requires forall q :: q in nodes ==> nodes[q] != child && nodes[q].children != child.children
    ensures Separate(nodes[p := child])
  {
  }

  lemma Closed(nodes: Paths, p: Word, c: char, child: TrieNode)
    requires PrefixClosed(nodes) && p in nodes
    ensures PrefixClosed(nodes[p + [c] := child])
  {
    var after := nodes[p + [c] := child];
    forall q, i | q in after && 0 <= i <= |q|
      ensures q[..i] in after
    {
      if q == p + [c] {
        assert q[..i] == if i <= |p| then p[..i] else q;
      }
    }
  }

  lemma NothingBelow(nodes: Paths, p: Word, c: char)
    requires PrefixClosed(nodes) && p + [c] !in nodes
    ensures forall d :: p + [c] + [d] !in nodes
  {
    forall d
      ensures p + [c] + [d] !in nodes
    {
      assert (p + [c] + [d])[..|p| + 1] == p + [c];
    }
  }

  // Whole sessions.

  datatype Op = Insert(word: Word) | Search(word: Word)

  /** What the searches of a session answer, over the words inserted so far. */
  function Answers(ops: seq<Op>, words: set<Word>): seq<bool> {
    if ops == [] then []
    else
      match ops[0]
      case Insert(w) => Answers(ops[1..], words + {w})
      case Search(w) => [w in words] + Answers(ops[1..], words)
  }

  /** A search finds a word exactly when it was inserted before. */
  lemma {:induction false} SearchFindsInserted(ops: seq<Op>, words: set<Word>, w: Word)
    ensures var answers := Answers(ops + [Search(w)], words);
            answers != [] && (answers[|answers| - 1] <==> w in words || Insert(w) in ops)
  {
    if ops == [] {
      assert Answers([Search(w)][1..], words) == [];
    } else {
      assert (ops + [Search(w)])[1..] == ops[1..] + [Search(w)];
      match ops[0]
      case Insert(v) => SearchFindsInserted(ops[1..], words + {v}, w);
      case Search(_) => SearchFindsInserted(ops[1..], words, w);
    }
  }

  method Session(ops: seq<Op>) returns (answers: seq<bool>)
    requires forall i :: 0 <= i < |ops| ==> Lowercase(ops[i].word)
    ensures answers == Answers(ops, {})
  {
    hide Trie.Valid, Trim;
    var trie := new Trie();
    answers := [];
    for i := 0 to |ops|
      invariant trie.Valid() && Trim(trie.nodes.Keys, trie.Words())
      invariant fresh(trie) && forall p :: p in trie.nodes ==> fresh(trie.nodes[p]) && fresh(trie.nodes[p].children)
      invariant Answers(ops, {}) == answers + Answers(ops[i..], trie.Words())
    {
      assert ops[i..][0] == ops[i] && ops[i..][1..] == ops[i + 1..];
      match ops[i]
      case Insert(w) => trie.Insert(w);
      case Search(w) =>
        var found := trie.Search(w);
        answers := answers + [found];
    }
  }
}
