/** The decisions the user-interface layer (ui_facade/src/lib.rs) makes
    around the components: filling the file-name index while a directory is
    walked, answering a file search from it, deciding which images to skip,
    and cutting the two ranked lists to their best ten. */
module UiFacade {
  import opened Common
  import opened Paths
  import opened AppProps
  import opened DirWalk
  import opened Ranking
  import opened AzureApi
  import opened Sqlite
  import opened Database

  // ----- The file-name index ------------------------------------------------

  /** The index after recording `path` under `name`: an absent name gets a
      set holding just the path, a present one gets the path added. */
  function AddPath(m: NameMap, name: string, path: string): (r: NameMap)
    ensures r.Keys == m.Keys + {name}
    ensures path in r[name] && (name in m ==> r[name] == m[name] + {path}) && (name !in m ==> r[name] == {path})
    ensures forall k :: k in m && k != name ==> r[k] == m[k]
  {
    m[name := (if name in m then m[name] else {}) + {path}]
  }

  /** Recording a path twice is recording it once, and recording only ever
      adds: no name and no path is lost. */
  lemma AddPathIdempotent(m: NameMap, name: string, path: string)
    ensures AddPath(AddPath(m, name, path), name, path) == AddPath(m, name, path)
    ensures forall k :: k in m ==> k in AddPath(m, name, path) && m[k] <= AddPath(m, name, path)[k]
  {
  }

  /** What one file found by the walk does to the index: its path with
      backslashes made slashes, filed under its final component (`unwrap`
      panics when it has none). */
  function IndexPath(m: NameMap, found: string): Run<NameMap>
  {
    var path := ReplaceBackslashes(found);
    match FileName(path)
    case None => Panicked
    case Some(n) => Done(AddPath(m, ReplaceBackslashes(n), path))
  }

  /** The index holds the (rewritten) path under its file name. */
  ghost predicate Indexed(m: NameMap, found: string)
  {
    var path := ReplaceBackslashes(found);
    FileName(path).Some? && FileName(path).value in m && path in m[FileName(path).value]
  }

  /** The file name is taken from a path without backslashes, so rewriting
      it again changes nothing: the key is exactly the path's final part. */
  lemma KeyIsFileName(found: string)
    requires FileName(ReplaceBackslashes(found)).Some?
    ensures ReplaceBackslashes(FileName(ReplaceBackslashes(found)).value) == FileName(ReplaceBackslashes(found)).value
  {
    var path := ReplaceBackslashes(found);
    var n := FileName(path).value;
    ReplaceBackslashesSpec(found);
    NameHasNoBackslash(path);
    var r := ReplaceBackslashes(n);
    assert forall i :: 0 <= i < |n| ==> r[i] == n[i];
  }

  /** A file name is a piece of its path, so it has no backslash when the
      path has none. */
  lemma {:induction false} NameHasNoBackslash(p: string)
    requires '\\' !in p && FileName(p).Some?
    ensures '\\' !in FileName(p).value
    decreases |p|
  {
    if p[|p| - 1] == '/' {
      var q := p[..|p| - 1];
      assert '\\' !in q by {
        assert forall i :: 0 <= i < |q| ==> q[i] == p[i];
      }
      NameHasNoBackslash(q);
    } else {
      var seg := LastSegment(p);
      var rest := p[..|p| - |seg|];
      if seg == "." {
        assert '\\' !in rest by {
          assert forall i :: 0 <= i < |rest| ==> rest[i] == p[i];
        }
        NameHasNoBackslash(rest);
      } else {
        assert FileName(p).value == seg;
        assert forall i :: 0 <= i < |seg| ==> seg[i] == p[|p| - |seg| + i];
      }
    }
  }

  /** The index after the walk has handed it every file in turn. */
  function IndexAll(m: NameMap, found: seq<string>): Run<NameMap>
  {
    if found == [] then Done(m)
    else
      match IndexAll(m, found[..|found| - 1])
      case Panicked => Panicked
      case Done(m') => IndexPath(m', found[|found| - 1])
  }

  /** Indexing one file panics exactly when it has no file name; otherwise
      it is indexed afterwards, and whatever was indexed before stays. */
  lemma IndexPathSpec(m: NameMap, found: string)
    ensures IndexPath(m, found).Panicked? <==> FileName(ReplaceBackslashes(found)).None?
    ensures IndexPath(m, found).Done? ==>
      var r := IndexPath(m, found).value;
      Indexed(r, found) &&
      (forall k :: k in m ==> k in r && m[k] <= r[k]) &&
      (forall q :: Indexed(m, q) ==> Indexed(r, q))
  {
    if FileName(ReplaceBackslashes(found)).Some? {
      KeyIsFileName(found);
    }
  }

  /** A found path that can be indexed: it has a file name once rewritten. */
  predicate Named(found: string)
  {
    FileName(ReplaceBackslashes(found)).Some?
  }

  /** One more file makes the run panic exactly when the run so far did or
      the new file has no file name. */
  lemma IndexAllStep(m: NameMap, found: seq<string>)
    requires found != []
    ensures IndexAll(m, found).Panicked? <==>
      IndexAll(m, found[..|found| - 1]).Panicked? || !Named(found[|found| - 1])
  {
  }

  /** Indexing a list of files panics exactly when one of them has no file
      name. */
  lemma {:induction false} IndexAllPanics(m: NameMap, found: seq<string>)
    ensures IndexAll(m, found).Panicked? <==> exists i :: 0 <= i < |found| && !Named(found[i])
    decreases |found|
  {
    if found != [] {
      IndexAllStep(m, found);
      IndexAllPanics(m, found[..|found| - 1]);
      var init, last := found[..|found| - 1], found[|found| - 1];
      assert found == init + [last];
      SomeFailsSnoc(init, last, Named);
    }
  }

  /** Some element of a list extended by `last` fails a test exactly when one
      of the original list fails it or `last` does. */
  lemma SomeFailsSnoc<T>(init: seq<T>, last: T, ok: T -> bool)
    ensures (exists i :: 0 <= i < |init + [last]| && !ok((init + [last])[i])) <==>
      (exists i :: 0 <= i < |init| && !ok(init[i])) || !ok(last)
  {
    var s := init + [last];
    if exists i :: 0 <= i < |s| && !ok(s[i]) {
      var i :| 0 <= i < |s| && !ok(s[i]);
      if i < |init| {
        assert s[i] == init[i];
      }
    }
    if exists i :: 0 <= i < |init| && !ok(init[i]) {
      var i :| 0 <= i < |init| && !ok(init[i]);
      assert s[i] == init[i];
    }
    assert s[|init|] == last;
  }

  /** Without a panic every file of the list is indexed, and every name and
      path already in the index stays there. */
  lemma {:induction false} IndexAllKeeps(m: NameMap, found: seq<string>)
    requires IndexAll(m, found).Done?
    ensures var r := IndexAll(m, found).value;
      (forall k :: k in m ==> k in r && m[k] <= r[k]) &&
      (forall i :: 0 <= i < |found| ==> Indexed(r, found[i]))
    decreases |found|
  {
    if found != [] {
      var init := found[..|found| - 1];
      var m' := IndexAll(m, init).value;
      IndexAllKeeps(m, init);
      IndexPathSpec(m', found[|found| - 1]);
      var r := IndexAll(m, found).value;
      forall i | 0 <= i < |found| - 1
        ensures Indexed(r, found[i])
      {
        assert found[i] == init[i];
        assert Indexed(m', init[i]);
      }
    }
  }

  /** The index entry made inside `index_directory`'s per-file closure:
      rewrite the path, take its file name, and add the path to that name's
      set, creating the set when the name is new. */
  method IndexFile(app: App, found: string) returns (r: Run<()>)
    modifies app
    ensures r.Panicked? <==> IndexPath(old(app.nameMap), found).Panicked?
    ensures r.Done? ==> app.nameMap == IndexPath(old(app.nameMap), found).value
    ensures r.Panicked? ==> app.nameMap == old(app.nameMap)
    ensures app.trie == old(app.trie) && app.prefixSearchEnabled == old(app.prefixSearchEnabled)
    ensures old(app.Consistent()) ==> app.Consistent()
  {
    var path := ReplaceBackslashes(found);
    var fileName := FileName(path);
    if fileName.None? {
      return Panicked;
    }
    var name := ReplaceBackslashes(fileName.value);
    if name !in app.nameMap {
      app.nameMap := app.nameMap[name := {path}];
    } else {
      app.nameMap := app.nameMap[name := app.nameMap[name] + {path}];
    }
    r := Done(());
  }

  /** `index_directory(dir)`: walk the tree from `root` and index every file
      the walk hands over, in that order. */
  method IndexDirectory(app: App, root: FsNode) returns (r: Run<()>)
    modifies app
    ensures var expected := IndexAll(old(app.nameMap), WalkTrace([root]).files);
      (r.Panicked? <==> expected.Panicked?) && (r.Done? ==> app.nameMap == expected.value)
    ensures app.trie == old(app.trie) && app.prefixSearchEnabled == old(app.prefixSearchEnabled)
    ensures old(app.Consistent()) ==> app.Consistent()
  {
    var walker := new DirWalker(root);
    ghost var read;
    var files;
    read, files := walker.WalkApply();
    ghost var m0 := app.nameMap;
    for i := 0 to |files|
      invariant IndexAll(m0, files[..i]) == Done(app.nameMap)
      invariant app.trie == old(app.trie) && app.prefixSearchEnabled == old(app.prefixSearchEnabled)
      invariant old(app.Consistent()) ==> app.Consistent()
    {
      assert files[..i + 1][..i] == files[..i];
      var step := IndexFile(app, files[i]);
      if step.Panicked? {
        IndexAllPanicSticks(m0, files, i + 1);
        return Panicked;
      }
    }
    assert files[..|files|] == files;
    r := Done(());
  }

  /** Once a prefix of the files panics, so does the whole list. */
  lemma {:induction false} IndexAllPanicSticks(m: NameMap, found: seq<string>, i: nat)
    requires i <= |found| && IndexAll(m, found[..i]).Panicked?
    ensures IndexAll(m, found).Panicked?
    decreases |found| - i
  {
    if i < |found| {
      assert found[..i + 1][..i] == found[..i];
      IndexAllPanicSticks(m, found, i + 1);
    } else {
      assert found[..i] == found;
    }
  }

  /** After indexing a directory without a panic, every file under it is in
      the index under its file name, and nothing that was indexed before is
      lost. */
  lemma IndexDirectoryCoversTree(m: NameMap, root: FsNode, p: string)
    requires IndexAll(m, WalkTrace([root]).files).Done?
    requires p in StackFiles([root])
    ensures Indexed(IndexAll(m, WalkTrace([root]).files).value, p)
    ensures forall k :: k in m ==> k in IndexAll(m, WalkTrace([root]).files).value
  {
    var files := WalkTrace([root]).files;
    WalkCallsEachFileOnce([root]);
    assert p in multiset(files);
    var i :| 0 <= i < |files| && files[i] == p;
    IndexAllKeeps(m, files);
  }

  // ----- File search --------------------------------------------------------

  /** One result line. */
  function Line(name: string, file: string): string
  {
    name + ": " + file
  }

  /** The lines for every path filed under `name`. */
  function LinesOf(name: string, files: set<string>): set<string>
  {
    set f | f in files :: Line(name, f)
  }

  /** The lines for every path filed under any of `names` that is indexed. */
  function PrefixLines(m: NameMap, names: set<string>): set<string>
  {
    set n, f | n in names && n in m && f in m[n] :: Line(n, f)
  }

  /** How many paths are filed under a name (none when it is absent). */
  function PathCount(m: NameMap, name: string): nat
  {
    if name in m then |m[name]| else 0
  }

  /** How many lines prefix search pushes for `names`: one per path filed
      under each of them. Lines of different names may be equal strings,
      so this counts pushes, not distinct lines. */
  ghost function PrefixCount(m: NameMap, names: set<string>): nat
    decreases |names|
  {
    if names == {} then 0
    else
      var n :| n in names;
      PathCount(m, n) + PrefixCount(m, names - {n})
  }

  /** The count does not depend on which name is taken first. */
  lemma {:induction false} PrefixCountRemove(m: NameMap, names: set<string>, n: string)
    requires n in names
    ensures PrefixCount(m, names) == PathCount(m, n) + PrefixCount(m, names - {n})
    decreases |names|
  {
    var first :| first in names && PrefixCount(m, names) == PathCount(m, first) + PrefixCount(m, names - {first});
    if first != n {
      PrefixCountRemove(m, names - {first}, n);
      PrefixCountRemove(m, names - {n}, first);
      assert names - {first} - {n} == names - {n} - {first};
    }
  }

  /** Different paths under one name make different lines. */
  lemma LineInjective(name: string, f1: string, f2: string)
    requires Line(name, f1) == Line(name, f2)
    ensures f1 == f2
  {
    var prefix := name + ": ";
    assert Line(name, f1)[|prefix|..] == f1;
    assert Line(name, f2)[|prefix|..] == f2;
  }

  /** One line per path of the set, in the order the set yields them. */
  method PushLines(name: string, files: set<string>) returns (lines: seq<string>)
    ensures |lines| == |files|
    ensures forall l :: l in lines <==> l in LinesOf(name, files)
  {
    lines := [];
    var rest := files;
    while rest != {}
      invariant rest <= files
      invariant |lines| + |rest| == |files|
      invariant forall l :: l in lines <==> exists f :: f in files - rest && l == Line(name, f)
      decreases |rest|
    {
      var f :| f in rest;
      lines := lines + [Line(name, f)];
      rest := rest - {f};
    }
  }

  /** `on_click_file_search(filename)`. With prefix search off, the lines of
      the paths filed under exactly that name (none when it is absent). With
      it on, the lines of every indexed name the trie predicts from the
      prefix; this panics when the trie is not built, or when a predicted
      name is missing from the index. */
  method FileSearch(app: App, filename: string) returns (r: Run<seq<string>>)
    ensures !app.prefixSearchEnabled ==>
      r.Done? &&
      (filename !in app.nameMap ==> r.value == []) &&
      (filename in app.nameMap ==>
         |r.value| == |app.nameMap[filename]| &&
         forall l :: l in r.value <==> l in LinesOf(filename, app.nameMap[filename]))
    ensures app.prefixSearchEnabled && app.trie.TrieBuilder? ==> r.Panicked?
    ensures app.prefixSearchEnabled && app.trie.Trie? ==>
      var names := PredictiveSearch(app.trie.keys, filename);
      (r.Panicked? <==> exists n :: n in names && n !in app.nameMap) &&
      (r.Done? ==> forall l :: l in r.value <==> l in PrefixLines(app.nameMap, names)) &&
      (r.Done? ==> |r.value| == PrefixCount(app.nameMap, names))
    ensures app.Consistent() ==> r.Done?
  {
    if app.prefixSearchEnabled {
      if app.trie.TrieBuilder? {
        return Panicked;
      }
      var names := PredictiveSearch(app.trie.keys, filename);
      var result: seq<string> := [];
      var todo := names;
      while todo != {}
        invariant todo <= names
        invariant forall n :: n in names - todo ==> n in app.nameMap
        invariant forall l :: l in result <==> l in PrefixLines(app.nameMap, names - todo)
        invariant |result| == PrefixCount(app.nameMap, names - todo)
        decreases |todo|
      {
        var name :| name in todo;
        if name !in app.nameMap {
          return Panicked;
        }
        var lines := PushLines(name, app.nameMap[name]);
        assert PrefixLines(app.nameMap, names - (todo - {name})) ==
          PrefixLines(app.nameMap, names - todo) + LinesOf(name, app.nameMap[name]);
        assert |result + lines| == PrefixCount(app.nameMap, names - (todo - {name})) by {
          var done := names - (todo - {name});
          PrefixCountRemove(app.nameMap, done, name);
          assert done - {name} == names - todo;
        }
        result := result + lines;
        todo := todo - {name};
      }
      assert names - {} == names;
      r := Done(result);
    } else {
      if filename in app.nameMap {
        var lines := PushLines(filename, app.nameMap[filename]);
        r := Done(lines);
      } else {
        r := Done([]);
      }
    }
  }

  /** Prefix search finds everything exact search finds: a name in the
      trie predicts itself, so its lines are among the prefix lines. */
  lemma PrefixFindsExact(m: NameMap, keys: set<string>, name: string)
    requires name in keys && name in m
    ensures LinesOf(name, m[name]) <= PrefixLines(m, PredictiveSearch(keys, name))
  {
    assert name in PredictiveSearch(keys, name);
    forall l | l in LinesOf(name, m[name])
      ensures l in PrefixLines(m, PredictiveSearch(keys, name))
    {
      var f :| f in m[name] && l == Line(name, f);
    }
  }

  // ----- Images -------------------------------------------------------------

  /** Sides the indexer accepts: from 50 to 16000 pixels each. */
  predicate SizeAccepted(width: nat, height: nat)
  {
    50 <= width <= 16000 && 50 <= height <= 16000
  }

  /** `should_skip_image(db, path)`: only image files are ever skipped; an
      image is skipped when its dimensions cannot be read, when a side is
      out of range, or when its path is already stored. The database and its
      connection are unwrapped only in the last case. */
  method ShouldSkipImage(db: Option<Database>, path: string, isFile: bool, isImage: bool,
                         dims: Option<(nat, nat)>) returns (r: Run<bool>)
    requires db.Some? ==> db.value.Valid()
    ensures !isFile || !isImage ==> r == Done(false)
    ensures isFile && isImage && (dims.None? || !SizeAccepted(dims.value.0, dims.value.1)) ==> r == Done(true)
    ensures isFile && isImage && dims.Some? && SizeAccepted(dims.value.0, dims.value.1) ==>
      (r.Panicked? <==> db.None? || db.value.connection.None?) &&
      (r.Done? ==> (r.value <==> HasPath(db.value.connection.value.images, path)))
    ensures r.Done? && r.value ==> isFile && isImage
  {
    if isFile && isImage {
      if dims.None? {
        return Done(true);
      }
      var (width, height) := dims.value;
      if width < 50 || height < 50 || width > 16000 || height > 16000 {
        return Done(true);
      }
      if db.None? {
        return Panicked;
      }
      r := db.value.ExistsImageByPath(path);
      return;
    }
    r := Done(false);
  }

  /** Labels ranked by their confidence. */
  function ScoredLabels(labels: seq<Label>): (s: seq<Scored<Label>>)
    ensures |s| == |labels|
    ensures forall k :: 0 <= k < |labels| ==> s[k] == Scored(labels[k], labels[k].score)
  {
    seq(|labels|, k requires 0 <= k < |labels| => Scored(labels[k], labels[k].score))
  }

  /** The label names `index_images` keeps: sort the labels by descending
      confidence, then push the names of the first ten. */
  method TopLabelNames(labels: seq<Label>) returns (names: seq<string>)
    ensures |names| == Min(10, |labels|)
    ensures forall k :: 0 <= k < |names| ==> names[k] == Top(ScoredLabels(labels), 10)[k].item.name
  {
    var sorted := SortDesc(ScoredLabels(labels));
    names := [];
    for i := 0 to Min(10, |sorted|)
      invariant |names| == i
      invariant forall k :: 0 <= k < i ==> names[k] == sorted[k].item.name
    {
      names := names + [sorted[i].item.name];
    }
  }

  /** The kept names are those of the best labels: best first, and no kept
      label has a lower confidence than one that was dropped. */
  lemma TopLabelsAreBest(labels: seq<Label>)
    ensures var top := Top(ScoredLabels(labels), 10);
      SortedDesc(top) && multiset(top) <= multiset(ScoredLabels(labels)) &&
      forall x, y :: x in top && y in multiset(ScoredLabels(labels)) - multiset(top) ==> x.item.score >= y.item.score
  {
    TopKeepsTheBest(ScoredLabels(labels), 10);
    TopIsTheBest(ScoredLabels(labels), 10);
    var top := Top(ScoredLabels(labels), 10);
    forall x | x in multiset(ScoredLabels(labels))
      ensures x.item.score == x.score
    {
      var k :| 0 <= k < |labels| && ScoredLabels(labels)[k] == x;
    }
    forall x | x in top
      ensures x.item.score == x.score
    {
      assert x in multiset(ScoredLabels(labels));
    }
  }

  /** `search_images`' answer: the candidates `(path, id)` with their
      similarity, sorted by descending similarity and cut to ten. At most
      ten, best first, each one a candidate, none worse than a dropped one. */
  function SearchResults(candidates: seq<Scored<(string, nat)>>): (r: seq<Scored<(string, nat)>>)
    ensures |r| == Min(10, |candidates|)
    ensures SortedDesc(r)
    ensures multiset(r) <= multiset(candidates)
    ensures forall x, y :: x in r && y in multiset(candidates) - multiset(r) ==> x.score >= y.score
  {
    TopKeepsTheBest(candidates, 10);
    TopIsTheBest(candidates, 10);
    Top(candidates, 10)
  }
}
