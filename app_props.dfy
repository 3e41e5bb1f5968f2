/** app_props/src/app.rs: the application state the user interface shares:
    the file-name index (base name to the set of full paths carrying it),
    the prefix-search trie built from its names, and the flag that says
    whether prefix search is on.

    The `trie_rs` trie is modelled as the set of keys it was built from,
    and its predictive search as "every key with the given prefix"; keys
    are pushed as UTF-8 bytes, and a byte prefix of UTF-8 text is exactly a
    character prefix. The shared `Arc<Mutex<..>>` cells are plain fields. */
module AppProps {
  import opened Common

  /** `HashMap<ArcStr, HashSet<ArcStr>>`: `ArcStr` compares by content. */
  type NameMap = map<string, set<string>>

  datatype SomeTrie =
    | Trie(keys: set<string>)
    | TrieBuilder(pushed: seq<string>)

  /** `trie.predictive_search(prefix)`: the stored keys beginning with it. */
  function PredictiveSearch(keys: set<string>, prefix: string): (found: set<string>)
    ensures found <= keys
    ensures forall k :: k in found <==> k in keys && prefix <= k
  {
    set k | k in keys && prefix <= k
  }

  /** A stored key is predicted from itself and from each of its prefixes;
      the empty prefix predicts every key, and a longer prefix never predicts
      more than a shorter one. */
  lemma PredictiveSearchSpec(keys: set<string>, key: string, prefix: string, longer: string)
    requires key in keys && prefix <= key && prefix <= longer
    ensures key in PredictiveSearch(keys, key) && key in PredictiveSearch(keys, prefix)
    ensures PredictiveSearch(keys, "") == keys
    ensures PredictiveSearch(keys, longer) <= PredictiveSearch(keys, prefix)
  {
    forall k | k in PredictiveSearch(keys, longer)
      ensures k in PredictiveSearch(keys, prefix)
    {
      assert longer <= k;
      assert k[..|prefix|] == longer[..|prefix|];
    }
  }

  /** The state of `map.bin` at start-up: absent (cannot be opened), or
      present with its decoding, `None` when it does not decode. */
  datatype MapFile = Missing | Present(decoded: Option<NameMap>)

  /** `initialize_map()`: the stored map; an empty one when there is no file;
      a panic (`expect`) when the file does not decode, so a corrupt index
      is never mistaken for an empty one. */
  function InitializeMap(file: MapFile): (r: Run<NameMap>)
    ensures file == Missing ==> r == Done(map[])
    ensures file == Present(None) ==> r.Panicked?
    ensures file.Present? && file.decoded.Some? ==> r == Done(file.decoded.value)
  {
    match file
    case Missing => Done(map[])
    case Present(None) => Panicked
    case Present(Some(m)) => Done(m)
  }

  /** `build_trie(map)`: push every key of the map into a builder, in the
      order the map yields them, then build; the values are ignored. */
  method BuildTrie(m: NameMap) returns (t: SomeTrie)
    ensures t.Trie? && t.keys == m.Keys
  {
    var builder: seq<string> := [];
    var rest := m.Keys;
    while rest != {}
      invariant rest <= m.Keys
      invariant forall k :: k in m.Keys <==> k in rest || k in builder
      decreases |rest|
    {
      var key :| key in rest;
      builder := builder + [key];
      rest := rest - {key};
    }
    t := Trie(set k | k in builder);
  }

  /** `initialize_trie(map)`: the same build, for a fresh shared cell. */
  method InitializeTrie(m: NameMap) returns (t: SomeTrie)
    ensures t == Trie(m.Keys)
  {
    t := BuildTrie(m);
  }

  class App {
    var nameMap: NameMap
    var trie: SomeTrie
    var prefixSearchEnabled: bool

    /** While prefix search is on, the trie is built and every name it
        holds is still a key of the map (the map only ever gains keys). */
    ghost predicate Consistent()
      reads this
    {
      prefixSearchEnabled ==> trie.Trie? && trie.keys <= nameMap.Keys
    }

    constructor (nameMap: NameMap, trie: SomeTrie, prefixSearchEnabled: bool)
      ensures this.nameMap == nameMap && this.trie == trie && this.prefixSearchEnabled == prefixSearchEnabled
    {
      this.nameMap := nameMap;
      this.trie := trie;
      this.prefixSearchEnabled := prefixSearchEnabled;
    }

    /** `enable_prefix_search`: the first call builds the trie from the
        map's current keys and turns the flag on; once on, later calls
        change nothing, so the trie keeps the keys of that first call. */
    method EnablePrefixSearch()
      modifies this
      ensures nameMap == old(nameMap) && prefixSearchEnabled
      ensures !old(prefixSearchEnabled) ==> trie == Trie(nameMap.Keys)
      ensures old(prefixSearchEnabled) ==> trie == old(trie)
      ensures old(Consistent()) ==> Consistent()
      ensures !old(prefixSearchEnabled) ==> Consistent()
    {
      if !prefixSearchEnabled {
        trie := InitializeTrie(nameMap);
        prefixSearchEnabled := true;
      }
    }
  }
}
