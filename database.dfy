/** database.rs: the handle on the SQLite file, its queries, the generic
    save, and its lifecycle: a handle must be closed explicitly, and one
    that is dropped instead panics.

    The `Save` trait declared here takes the connection by shared
    reference and returns nothing; the vector types implement exactly that
    signature, while `Image` implements a different one (image.rs), so the
    generic `save`/`save_all` are modelled over semantic vectors. */
module Database {
  import opened Common
  import opened Sqlite
  import opened SemanticVector
  import opened ImageRecord

  /** The vector rows as elements (`SemanticVectorElement` from each row). */
  function AsElements(rows: seq<VectorRow>): (es: seq<Element>)
    ensures |es| == |rows|
    ensures forall k :: 0 <= k < |rows| ==> es[k] == Element(rows[k].id, rows[k].imageId, rows[k].value)
  {
    if rows == [] then [] else AsElements(rows[..|rows| - 1]) + [Element(rows[|rows| - 1].id, rows[|rows| - 1].imageId, rows[|rows| - 1].value)]
  }

  /** An image as `select_image_by_path` rebuilds it. */
  datatype Selected = Selected(id: nat, path: string, title: string, elements: seq<Element>)

  predicate FitsU32(rows: seq<VectorRow>)
  {
    forall k :: 0 <= k < |rows| ==> rows[k].id < U32_MODULUS
  }

  /** `select_image_by_path(path)` on the given tables: the first row with
      that path (`expect("row")` panics when there is none), its id read as
      `u32` (`unwrap` panics when it does not fit), and its vector rows in
      table order (collecting them panics when some id does not fit). */
  function Select(images: seq<ImageRow>, vectors: seq<VectorRow>, path: string): Run<Selected>
  {
    var rows := ImagesWithPath(images, path);
    if rows == [] then Panicked
    else if rows[0].id >= U32_MODULUS then Panicked
    else
      var vs := VectorsOf(vectors, rows[0].id);
      if !FitsU32(vs) then Panicked
      else Done(Selected(rows[0].id, rows[0].path, rows[0].title, AsElements(vs)))
  }

  /** A stored path selects its own row and the vector rows naming it. */
  lemma SelectFindsStoredRow(images: seq<ImageRow>, vectors: seq<VectorRow>, i: nat)
    requires PathsUnique(images) && i < |images|
    requires images[i].id < U32_MODULUS && FitsU32(VectorsOf(vectors, images[i].id))
    ensures Select(images, vectors, images[i].path) ==
      Done(Selected(images[i].id, images[i].path, images[i].title, AsElements(VectorsOf(vectors, images[i].id))))
  {
    var path := images[i].path;
    var rows := ImagesWithPath(images, path);
    assert rows == [images[i]] by {
      AtMostOneRowPerPath(images, path);
      assert images[i] in rows;
      assert |rows| == 1;
    }
  }

  /** A path that is not stored makes the select panic. */
  lemma SelectPanicsWhenAbsent(images: seq<ImageRow>, vectors: seq<VectorRow>, path: string)
    requires !HasPath(images, path)
    ensures ImagesWithPath(images, path) == []
    ensures Select(images, vectors, path) == Panicked
  {
  }

  /** No row names an image id beyond every id in use. */
  lemma NoVectorsOfNewImage(vectors: seq<VectorRow>, imageId: nat)
    requires forall i :: 0 <= i < |vectors| ==> vectors[i].imageId < imageId
    ensures VectorsOf(vectors, imageId) == []
  {
  }

  lemma {:induction false} ImagesWithPathAppend(a: seq<ImageRow>, b: seq<ImageRow>, path: string)
    ensures ImagesWithPath(a + b, path) == ImagesWithPath(a, path) + ImagesWithPath(b, path)
    decreases |b|
  {
    if b == [] {
      assert a + b == a;
    } else {
      assert (a + b)[..|a + b| - 1] == a + b[..|b| - 1];
      ImagesWithPathAppend(a, b[..|b| - 1], path);
    }
  }

  lemma {:induction false} VectorsOfAppend(a: seq<VectorRow>, b: seq<VectorRow>, imageId: nat)
    ensures VectorsOf(a + b, imageId) == VectorsOf(a, imageId) + VectorsOf(b, imageId)
    decreases |b|
  {
    if b == [] {
      assert a + b == a;
    } else {
      assert (a + b)[..|a + b| - 1] == a + b[..|b| - 1];
      VectorsOfAppend(a, b[..|b| - 1], imageId);
    }
  }

  /** The rows written by one save all name the stamped image, so selecting
      by that image finds all of them, in order. */
  lemma {:induction false} SavedRowsOfImage(es: seq<Element>, base: nat, imageId: nat)
    ensures VectorsOf(SavedRows(Stamped(es, imageId), base), imageId) == SavedRows(Stamped(es, imageId), base)
    decreases |es|
  {
    if es != [] {
      var init := es[..|es| - 1];
      SavedRowsOfImage(init, base, imageId);
      assert Stamped(es, imageId)[..|es| - 1] == Stamped(init, imageId);
    }
  }

  /** Reading the saved rows back gives the saved elements, as long as the
      rowids fit in 32 bits. */
  lemma ReadBackSavedRows(es: seq<Element>, base: nat)
    requires base + |es| <= U32_MODULUS
    ensures AsElements(SavedRows(es, base)) == WithRowids(es, base)
    ensures FitsU32(SavedRows(es, base))
  {
    forall k | 0 <= k < |es|
      ensures AsElements(SavedRows(es, base))[k] == WithRowids(es, base)[k]
      ensures SavedRows(es, base)[k].id < U32_MODULUS
    {
      SaveMatchesRows(es, base, k);
    }
  }

  /** Round trip: after an image with a new path is saved, selecting its
      path gives back its id, path, title and exactly its saved vector, as
      long as the rowids fit in 32 bits and no older vector row already
      names the new image id. */
  lemma SaveThenSelect(images: seq<ImageRow>, vectors: seq<VectorRow>, path: string, title: string, es: seq<Element>)
    requires ImageIdsIncrease(images) && PathsUnique(images) && VectorIdsIncrease(vectors)
    requires !HasPath(images, path)
    requires NextImageId(images) < U32_MODULUS
    requires NextVectorId(vectors) + |es| <= U32_MODULUS
    requires forall i :: 0 <= i < |vectors| ==> vectors[i].imageId < NextImageId(images)
    ensures
      var row := NextImageId(images);
      var stamped := Stamped(es, row);
      var base := NextVectorId(vectors);
      Select(images + [ImageRow(row, path, title)], vectors + SavedRows(stamped, base), path) ==
        Done(Selected(row, path, title, WithRowids(stamped, base)))
  {
    var row := NextImageId(images);
    var stamped := Stamped(es, row);
    var base := NextVectorId(vectors);
    var newRow := ImageRow(row, path, title);
    var saved := SavedRows(stamped, base);
    assert ImagesWithPath(images + [newRow], path) == [newRow] by {
      ImagesWithPathAppend(images, [newRow], path);
      SelectPanicsWhenAbsent(images, vectors, path);
      assert [newRow][..0] == [];
    }
    assert VectorsOf(vectors + saved, row) == saved by {
      VectorsOfAppend(vectors, saved, row);
      NoVectorsOfNewImage(vectors, row);
      SavedRowsOfImage(es, base, row);
    }
    ReadBackSavedRows(stamped, base);
  }

  class Database {
    var connection: Option<Connection>
    /** The handle has been moved into `close`; Rust lets nothing use it
        afterwards. */
    ghost var consumed: bool

    ghost predicate Valid()
      reads this, if connection.Some? then {connection.value} else {}
    {
      connection.Some? ==> connection.value.Valid()
    }

    ghost function Footprint(): set<object>
      reads this
    {
      if connection.Some? then {connection.value} else {}
    }

    /** `Database::new()`: open the file; the `CREATE ... IF NOT EXISTS`
        statements leave existing tables and rows as they are. */
    constructor Open(conn: Connection)
      requires conn.Valid()
      ensures Valid() && !consumed && connection == Some(conn)
    {
      connection := Some(conn);
      consumed := false;
    }

    /** `close(self)`: take the connection (`unwrap` panics when there is
        none) and close it; the handle is then forgotten, so `Drop` does
        not run for it. */
    method Close() returns (r: Run<()>)
      requires !consumed
      modifies this
      ensures consumed && connection.None?
      ensures r.Panicked? <==> old(connection).None?
    {
      consumed := true;
      if connection.None? {
        return Panicked;
      }
      connection := None;
      r := Done(());
    }

    /** `Drop`: a handle still owned when it goes out of scope panics. */
    method Drop() returns (r: Run<()>)
      requires !consumed
      modifies this
      ensures consumed && r.Panicked?
    {
      consumed := true;
      r := Panicked;
    }

    /** `save(item)`: save the item over the connection (`unwrap` panics
        when there is none). */
    method Save(item: SemanticVec) returns (r: Run<()>)
      requires !consumed && Valid()
      modifies item, Footprint()
      ensures Valid() && connection == old(connection)
      ensures r.Panicked? <==> connection.None?
      ensures connection.None? ==> item.elements == old(item.elements)
      ensures connection.Some? ==>
        var conn := connection.value;
        var base := NextVectorId(old(conn.vectors));
        conn.images == old(conn.images) &&
        conn.vectors == old(conn.vectors) + SavedRows(old(item.elements), base) &&
        item.elements == WithRowids(old(item.elements), base)
    {
      if connection.None? {
        return Panicked;
      }
      item.Save(connection.value);
      r := Done(());
    }

    /** `save_all(items)`: save each item once, in list order (the first
        save panics when there is no connection). The list owns its items,
        so they are values here and `saved` is the list's new contents:
        each item gets the rowids that follow those of the items before
        it, as `SavedEach` states. */
    method SaveAll(items: seq<seq<Element>>) returns (r: Run<()>, saved: seq<seq<Element>>)
      requires !consumed && Valid()
      modifies Footprint()
      ensures Valid() && connection == old(connection)
      ensures r.Panicked? <==> connection.None? && items != []
      ensures connection.None? ==> saved == items
      ensures connection.Some? ==>
        var conn := connection.value;
        var base := NextVectorId(old(conn.vectors));
        conn.images == old(conn.images) &&
        conn.vectors == old(conn.vectors) + SavedRows(Concat(items), base) &&
        saved == SavedEach(items, base)
    {
      saved := items;
      if connection.None? {
        r := if items != [] then Panicked else Done(());
        return;
      }
      r := Done(());
      var conn := connection.value;
      ghost var base := NextVectorId(conn.vectors);
      ghost var rows := conn.vectors;
      saved := [];
      for i := 0 to |items|
        invariant conn.Valid() && conn.images == old(conn.images)
        invariant conn.vectors == rows + SavedRows(Concat(items[..i]), base)
        invariant saved == SavedEach(items[..i], base)
      {
        ghost var c := Concat(items[..i]);
        ghost var v0 := conn.vectors;
        assert NextVectorId(v0) == base + |c| by {
          NextAfterSaved(rows, c, base);
        }
        var next := SaveElements(items[i], conn);
        SaveAllStep(rows, items, i, base, v0, conn.vectors);
        SavedEachStep(items, i, base);
        saved := saved + [next];
      }
      assert items[..|items|] == items;
    }

    /** `exists_image_by_path(path)`: whether some row has that path. */
    method ExistsImageByPath(path: string) returns (r: Run<bool>)
      requires Valid()
      ensures connection.None? ==> r.Panicked?
      ensures connection.Some? ==> r.Done? && (r.value <==> exists i :: 0 <= i < |connection.value.images| && connection.value.images[i].path == path)
    {
      if connection.None? {
        return Panicked;
      }
      r := Done(HasPath(connection.value.images, path));
    }

    /** `select_image_by_path(path)`: the image rebuilt from its row and
        its vector rows, as `Select` describes, or a panic. */
    method SelectImageByPath(path: string) returns (r: Run<Image>)
      requires Valid()
      ensures connection.None? ==> r.Panicked?
      ensures connection.Some? ==>
        var s := Select(connection.value.images, connection.value.vectors, path);
        (r.Panicked? <==> s.Panicked?) &&
        (r.Done? ==>
           fresh(r.value) && fresh(r.value.semanticVector) &&
           r.value.id == s.value.id && r.value.path == s.value.path && r.value.title == s.value.title &&
           r.value.semanticVector.elements == s.value.elements)
    {
      if connection.None? {
        return Panicked;
      }
      var s := Select(connection.value.images, connection.value.vectors, path);
      if s.Panicked? {
        return Panicked;
      }
      var image := new Image(s.value.path, s.value.title);
      image.id := s.value.id;
      image.semanticVector.elements := s.value.elements;
      r := Done(image);
    }
  }

  /** All element lists, one after the other. */
  function Concat(ess: seq<seq<Element>>): (all: seq<Element>)
  {
    if ess == [] then [] else Concat(ess[..|ess| - 1]) + ess[|ess| - 1]
  }

  /** Each item saved after the ones before it: item `k` gets the rowids
      that follow the rows of items `0..k`. */
  function SavedEach(ess: seq<seq<Element>>, base: nat): (after: seq<seq<Element>>)
    ensures |after| == |ess|
  {
    if ess == [] then []
    else
      var init := ess[..|ess| - 1];
      SavedEach(init, base) + [WithRowids(ess[|ess| - 1], base + |Concat(init)|)]
  }

  /** Saving the items one after the other stamps them exactly as saving
      all their elements as one list would: the lists put back together are
      that single save's result. */
  lemma {:induction false} SavedEachIsOneSave(ess: seq<seq<Element>>, base: nat)
    ensures Concat(SavedEach(ess, base)) == WithRowids(Concat(ess), base)
    decreases |ess|
  {
    if ess != [] {
      var init := ess[..|ess| - 1];
      var after := SavedEach(ess, base);
      SavedEachIsOneSave(init, base);
      assert after[..|after| - 1] == SavedEach(init, base);
      SavedRowsAppend(Concat(init), ess[|ess| - 1], base);
    }
  }

  /** One more item saved: its rows follow those of the items before it. */
  lemma SaveAllStep(rows: seq<VectorRow>, items: seq<seq<Element>>, i: nat, base: nat,
                    v0: seq<VectorRow>, v1: seq<VectorRow>)
    requires i < |items|
    requires v0 == rows + SavedRows(Concat(items[..i]), base)
    requires v1 == v0 + SavedRows(items[i], base + |Concat(items[..i])|)
    ensures v1 == rows + SavedRows(Concat(items[..i + 1]), base)
  {
    var c := Concat(items[..i]);
    assert items[..i + 1][..i] == items[..i];
    assert Concat(items[..i + 1]) == c + items[i];
    SavedRowsAppend(c, items[i], base);
    AppendAssoc(rows, SavedRows(c, base), SavedRows(items[i], base + |c|));
  }

  lemma SavedEachStep(items: seq<seq<Element>>, i: nat, base: nat)
    requires i < |items|
    ensures SavedEach(items[..i + 1], base) == SavedEach(items[..i], base) + [WithRowids(items[i], base + |Concat(items[..i])|)]
  {
    assert items[..i + 1][..i] == items[..i];
  }

  lemma AppendAssoc<T>(a: seq<T>, b: seq<T>, c: seq<T>)
    ensures (a + b) + c == a + (b + c)
  {
  }

  /** After the rows of a save, the next rowid follows the last of them. */
  lemma NextAfterSaved(rows: seq<VectorRow>, es: seq<Element>, base: nat)
    requires VectorIdsIncrease(rows) && base == NextVectorId(rows)
    requires VectorIdsIncrease(rows + SavedRows(es, base))
    ensures NextVectorId(rows + SavedRows(es, base)) == base + |es|
  {
    if es != [] {
      SaveMatchesRows(es, base, |es| - 1);
    }
  }
}
