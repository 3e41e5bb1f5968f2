/** The hand-written character trie of the `trie` crate (trie.rs, node.rs).

    Every node owns its children (`HashMap<char, Box<Node>>`), so the trie
    is a tree with no sharing; it is modelled as a tree value, `Node`, held
    in the one field the `Trie` object updates, `root`. */
module PathTrie {
  import opened Common
  import Paths

  /** node.rs: the path list (absent until a name ends here), the children,
      at most one per character, and the character the node was made for. */
  datatype Node = Node(path: Option<seq<string>>, children: map<char, Node>, letter: char)

  /** `Node::new(letter)`: no path list (which is not an empty list), no
      children, the given letter. */
  function NewNode(letter: char): (n: Node)
    ensures n.path == None && n.path != Some([])
    ensures n.children == map[] && n.letter == letter
  {
    Node(None, map[], letter)
  }

  /** The character path `insert` follows for `path`: its file name, or
      nothing (the root) when it has none. */
  function Key(path: string): (k: string)
    ensures Paths.FileName(path).Some? ==> k == Paths.FileName(path).value
    ensures Paths.FileName(path).None? ==> k == []
  {
    match Paths.FileName(path)
    case Some(name) => name
    case None => []
  }

  /** The child `insert` moves to for `c`: the existing one, or a new node. */
  function Child(n: Node, c: char): Node
  {
    if c in n.children then n.children[c] else NewNode(c)
  }

  /** What `search(name)` answers from node `n`: `None` at the first missing
      child, else the path list of the node reached. */
  function Find(n: Node, name: string): Option<seq<string>>
  {
    if name == [] then n.path
    else if name[0] in n.children then Find(n.children[name[0]], name[1..])
    else None
  }

  /** The node reached from `n` along `name`, if every child exists. */
  function SubtreeAt(n: Node, name: string): Option<Node>
  {
    if name == [] then Some(n)
    else if name[0] in n.children then SubtreeAt(n.children[name[0]], name[1..])
    else None
  }

  /** A terminal list after pushing `p`: a new one-element list, or the old
      list with `p` at the end. */
  function AppendPath(list: Option<seq<string>>, p: string): (r: Option<seq<string>>)
    ensures r.Some? && |r.value| > 0 && r.value[|r.value| - 1] == p
    ensures list.Some? ==> r.value[..|r.value| - 1] == list.value
    ensures list.None? ==> r.value == [p]
  {
    match list
    case None => Some([p])
    case Some(ps) => Some(ps + [p])
  }

  /** The tree after `insert` has walked `key` from `n` and pushed `path`. */
  function InsertAt(n: Node, key: string, path: string): Node
    decreases key
  {
    if key == [] then n.(path := AppendPath(n.path, path))
    else n.(children := n.children[key[0] := InsertAt(Child(n, key[0]), key[1..], path)])
  }

  /** Every child is stored under the letter it was created for. */
  ghost predicate LettersMatch(n: Node)
  {
    forall c :: c in n.children ==> n.children[c].letter == c && LettersMatch(n.children[c])
  }

  class Trie {
    var root: Node

    ghost predicate Valid()
      reads this
    {
      root.letter == ' ' && LettersMatch(root)
    }

    /** `Trie::new()`: a root for ' ' and nothing else. */
    constructor ()
      ensures Valid() && root == NewNode(' ')
    {
      root := NewNode(' ');
    }

    /** `insert(path)`: walk the characters of the file name from the root,
        creating each missing child, and push `path` onto the list of the
        node reached. The walk down is kept as the list of nodes passed;
        the changed nodes are then written back from the bottom up. */
    method Insert(path: string)
      requires Valid()
      modifies this
      ensures Valid()
      ensures root == InsertAt(old(root), Key(path), path)
    {
      var key := Key(path);
      var spine := [root];
      var current := root;
      for i := 0 to |key|
        invariant |spine| == i + 1 && spine[0] == root && spine[i] == current
        invariant forall j :: 0 <= j < i ==> spine[j + 1] == Child(spine[j], key[j])
      {
        current := Child(current, key[i]);
        spine := spine + [current];
      }
      var node := current.(path := AppendPath(current.path, path));
      var i := |key|;
      while i > 0
        invariant 0 <= i <= |key|
        invariant node == InsertAt(spine[i], key[i..], path)
      {
        i := i - 1;
        assert key[i..][1..] == key[i + 1..];
        assert spine[i + 1] == Child(spine[i], key[i]);
        node := spine[i].(children := spine[i].children[key[i] := node]);
      }
      assert key[0..] == key;
      assert node == InsertAt(root, key, path);
      InsertKeepsLetters(root, key, path);
      root := node;
    }

    /** `search(filename)`. */
    method Search(name: string) returns (r: Option<seq<string>>)
      ensures r == Find(root, name)
    {
      var current := root;
      for i := 0 to |name|
        invariant Find(root, name) == Find(current, name[i..])
      {
        assert name[i..][1..] == name[i + 1..];
        if name[i] in current.children {
          current := current.children[name[i]];
        } else {
          return None;
        }
      }
      assert name[|name|..] == [];
      r := current.path;
    }
  }

  lemma {:induction false} InsertKeepsLetters(n: Node, key: string, path: string)
    requires LettersMatch(n)
    ensures LettersMatch(InsertAt(n, key, path)) && InsertAt(n, key, path).letter == n.letter
    decreases key
  {
    if key != [] {
      InsertKeepsLetters(Child(n, key[0]), key[1..], path);
    }
  }

  /** A node that has only been created finds nothing, whatever the name:
      so a fresh trie's `search` answers `None`. */
  lemma FreshNodeFindsNothing(c: char, name: string)
    ensures Find(NewNode(c), name) == None
  {
  }

  /** After `insert`, the list under the key is the old one (or none) with
      the path pushed at its end. */
  lemma {:induction false} FindAfterInsert(n: Node, key: string, path: string)
    ensures Find(InsertAt(n, key, path), key) == AppendPath(Find(n, key), path)
    decreases key
  {
    if key != [] {
      var c := Child(n, key[0]);
      FindAfterInsert(c, key[1..], path);
      if key[0] !in n.children {
        FreshNodeFindsNothing(key[0], key[1..]);
      }
    }
  }

  /** `insert` changes the answer for its own key only. */
  lemma {:induction false} InsertKeepsOtherNames(n: Node, key: string, path: string, name: string)
    requires name != key
    ensures Find(InsertAt(n, key, path), name) == Find(n, name)
    decreases key
  {
    if name != [] && key != [] && name[0] == key[0] {
      InsertKeepsOtherNames(Child(n, key[0]), key[1..], path, name[1..]);
      if key[0] !in n.children {
        FreshNodeFindsNothing(key[0], name[1..]);
      }
    }
  }

  lemma FreshSubtreeAt(c: char, name: string)
    requires name != []
    ensures SubtreeAt(NewNode(c), name) == None
  {
  }

  /** `insert` leaves every node off its own character path as it was. */
  lemma {:induction false} InsertKeepsOtherSubtrees(n: Node, key: string, path: string, name: string)
    requires !(name <= key)
    ensures SubtreeAt(InsertAt(n, key, path), name) == SubtreeAt(n, name)
    decreases key
  {
    if key != [] && name[0] == key[0] {
      InsertKeepsOtherSubtrees(Child(n, key[0]), key[1..], path, name[1..]);
      if key[0] !in n.children {
        FreshSubtreeAt(key[0], name[1..]);
      }
    }
  }

  /** After `insert`, every node along the key exists. */
  lemma {:induction false} InsertCreatesKeyPath(n: Node, key: string, path: string, k: nat)
    requires k <= |key|
    ensures SubtreeAt(InsertAt(n, key, path), key[..k]).Some?
    decreases key
  {
    if k > 0 {
      assert key[..k][0] == key[0] && key[..k][1..] == key[1..][..k - 1];
      InsertCreatesKeyPath(Child(n, key[0]), key[1..], path, k - 1);
    }
  }

  /** Inserting twice pushes the path twice: duplicates accumulate. */
  lemma DuplicatesAccumulate(n: Node, path: string)
    ensures
      var k := Key(path);
      Find(InsertAt(InsertAt(n, k, path), k, path), k) == AppendPath(AppendPath(Find(n, k), path), path)
  {
    var k := Key(path);
    FindAfterInsert(n, k, path);
    FindAfterInsert(InsertAt(n, k, path), k, path);
  }

  /** After inserting one path into a fresh trie, a strict prefix of its
      name finds nothing: the nodes passed on the way hold no list. */
  lemma StrictPrefixFindsNothing(path: string, k: nat)
    requires k < |Key(path)|
    ensures Find(InsertAt(NewNode(' '), Key(path), path), Key(path)[..k]) == None
  {
    var key := Key(path);
    assert key[..k] != key by {
      assert |key[..k]| == k;
    }
    InsertKeepsOtherNames(NewNode(' '), key, path, key[..k]);
    FreshNodeFindsNothing(' ', key[..k]);
  }

  /** Paths in different directories with the same file name reach the same
      node. */
  lemma SameNameSameNode(dir1: string, dir2: string, n: string)
    requires Paths.IsName(n)
    ensures Key(dir1 + "/" + n) == Key(dir2 + "/" + n) == n
  {
    Paths.SameFileNameInAnyDirectory(dir1, dir2, n);
  }

  /** A path without a file name is pushed onto the root's own list. */
  lemma NamelessPathAtRoot(n: Node, path: string)
    requires Paths.FileName(path).None?
    ensures InsertAt(n, Key(path), path).path == AppendPath(n.path, path)
    ensures InsertAt(n, Key(path), path).children == n.children
  {
  }
}
