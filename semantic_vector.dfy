/** semantic_vector.rs: the elements of an image's semantic vector and the
    vector itself, with the save that writes one `semantic_vectors` row per
    element and stamps each element with the rowid it got.

    `id` and `image_id` are `u32` in the program; the rowid SQLite returns
    is cast with `as u32`, which keeps its low 32 bits (`AsU32`). Values are
    copied, never computed, so they are opaque reals. */
module SemanticVector {
  import opened Common
  import opened Sqlite

  datatype Element = Element(id: nat, imageId: nat, value: real)

  /** `SemanticVectorElement::new(image_id, value)`: not saved yet, id 0. */
  function NewElement(imageId: nat, value: real): (e: Element)
    ensures e.id == 0 && e.imageId == imageId && e.value == value
  {
    Element(0, imageId, value)
  }

  /** The values carried by a list of elements, in order. */
  function Values(es: seq<Element>): (vs: seq<real>)
    ensures |vs| == |es|
    ensures forall k :: 0 <= k < |es| ==> vs[k] == es[k].value
  {
    if es == [] then [] else Values(es[..|es| - 1]) + [es[|es| - 1].value]
  }

  /** The elements `from_vec` builds: one unsaved element per value. */
  function Unsaved(values: seq<real>): (es: seq<Element>)
    ensures |es| == |values|
  {
    if values == [] then [] else Unsaved(values[..|values| - 1]) + [NewElement(0, values[|values| - 1])]
  }

  /** `from_vec` loses nothing: the values come back in order, and every
      element is unsaved and belongs to no image yet. */
  lemma {:induction false} UnsavedRoundTrip(values: seq<real>)
    ensures Values(Unsaved(values)) == values
    ensures forall k :: 0 <= k < |values| ==> Unsaved(values)[k].id == 0 && Unsaved(values)[k].imageId == 0
    decreases |values|
  {
    if values != [] {
      var init := values[..|values| - 1];
      UnsavedRoundTrip(init);
      assert Unsaved(values)[..|values| - 1] == Unsaved(init);
      assert init + [values[|values| - 1]] == values;
    }
  }

  /** The rows that saving `es` appends, when the table's next rowid is
      `base`: consecutive rowids, each element's image id and value. */
  function SavedRows(es: seq<Element>, base: nat): (rows: seq<VectorRow>)
    ensures |rows| == |es|
  {
    if es == [] then []
    else SavedRows(es[..|es| - 1], base) + [VectorRow(base + |es| - 1, es[|es| - 1].imageId, es[|es| - 1].value)]
  }

  /** The elements after the save: each one carries its own row's rowid. */
  function WithRowids(es: seq<Element>, base: nat): (saved: seq<Element>)
    ensures |saved| == |es|
  {
    if es == [] then []
    else WithRowids(es[..|es| - 1], base) + [es[|es| - 1].(id := AsU32(base + |es| - 1))]
  }

  /** Row `k` is element `k`'s own insert, and element `k` now holds that
      row's rowid (cut to 32 bits); nothing else about it changes. */
  lemma {:induction false} SaveMatchesRows(es: seq<Element>, base: nat, k: nat)
    requires k < |es|
    ensures SavedRows(es, base)[k] == VectorRow(base + k, es[k].imageId, es[k].value)
    ensures WithRowids(es, base)[k] == es[k].(id := AsU32(SavedRows(es, base)[k].id))
    decreases |es|
  {
    if k < |es| - 1 {
      SaveMatchesRows(es[..|es| - 1], base, k);
    }
  }

  /** Unless the rowids pass 2^32, the saved ids strictly increase along
      the vector. */
  lemma SavedIdsIncrease(es: seq<Element>, base: nat, i: nat, j: nat)
    requires i < j < |es|
    requires base + |es| <= U32_MODULUS
    ensures WithRowids(es, base)[i].id < WithRowids(es, base)[j].id
  {
    SaveMatchesRows(es, base, i);
    SaveMatchesRows(es, base, j);
  }

  /** Saving two lists one after the other writes the rows of saving them
      as one list. */
  lemma {:induction false} SavedRowsAppend(a: seq<Element>, b: seq<Element>, base: nat)
    ensures SavedRows(a + b, base) == SavedRows(a, base) + SavedRows(b, base + |a|)
    ensures WithRowids(a + b, base) == WithRowids(a, base) + WithRowids(b, base + |a|)
    decreases |b|
  {
    if b == [] {
      assert a + b == a;
    } else {
      assert (a + b)[..|a + b| - 1] == a + b[..|b| - 1];
      SavedRowsAppend(a, b[..|b| - 1], base);
    }
  }

  /** `impl Save for Vec<SemanticVectorElement>`: for each element in turn,
      insert its row and store the new rowid in its `id`. The vector is
      updated in place; `saved` is its new contents, built up front to back. */
  method SaveElements(es: seq<Element>, conn: Connection) returns (saved: seq<Element>)
    requires conn.Valid()
    modifies conn
    ensures conn.Valid()
    ensures conn.images == old(conn.images)
    ensures conn.vectors == old(conn.vectors) + SavedRows(es, NextVectorId(old(conn.vectors)))
    ensures saved == WithRowids(es, NextVectorId(old(conn.vectors)))
    ensures es == [] ==> conn.lastInsertRowid == old(conn.lastInsertRowid)
    ensures es != [] ==> conn.lastInsertRowid == NextVectorId(old(conn.vectors)) + |es| - 1
  {
    ghost var base := NextVectorId(conn.vectors);
    ghost var before := conn.vectors;
    saved := [];
    for k := 0 to |es|
      invariant conn.Valid() && conn.images == old(conn.images)
      invariant conn.vectors == before + SavedRows(es[..k], base)
      invariant saved == WithRowids(es[..k], base)
      invariant k > 0 ==> conn.lastInsertRowid == base + k - 1
      invariant k == 0 ==> conn.lastInsertRowid == old(conn.lastInsertRowid)
    {
      assert NextVectorId(conn.vectors) == base + k by {
        if k > 0 {
          SaveMatchesRows(es[..k], base, k - 1);
        }
      }
      conn.InsertVector(es[k].imageId, es[k].value);
      saved := saved + [es[k].(id := AsU32(conn.lastInsertRowid))];
      assert SavedRows(es[..k + 1], base) == SavedRows(es[..k], base) + [VectorRow(base + k, es[k].imageId, es[k].value)]
        && WithRowids(es[..k + 1], base) == WithRowids(es[..k], base) + [es[k].(id := AsU32(base + k))] by {
        assert es[..k + 1][..k] == es[..k];
      }
    }
    assert es[..|es|] == es;
  }

  class SemanticVec {
    var elements: seq<Element>

    /** `SemanticVec::new()`: no elements. */
    constructor ()
      ensures elements == []
    {
      elements := [];
    }

    /** `clone()`: a separate vector with the same elements. */
    method Clone() returns (copy: SemanticVec)
      ensures fresh(copy) && copy.elements == elements
    {
      copy := new SemanticVec();
      copy.elements := elements;
    }

    /** `push(element)`: appended at the end; earlier elements stay. */
    method Push(e: Element)
      modifies this
      ensures elements == old(elements) + [e]
    {
      elements := elements + [e];
    }

    /** `SemanticVec::from_vec(values)`: push one new element per value. */
    static method FromVec(values: seq<real>) returns (v: SemanticVec)
      ensures fresh(v)
      ensures v.elements == Unsaved(values)
    {
      v := new SemanticVec();
      for i := 0 to |values|
        invariant v.elements == Unsaved(values[..i])
      {
        assert values[..i + 1][..i] == values[..i];
        v.Push(NewElement(0, values[i]));
      }
      assert values[..|values|] == values;
    }

    /** `impl Save for SemanticVec`: the save of the inner vector. */
    method Save(conn: Connection)
      requires conn.Valid()
      modifies this, conn
      ensures conn.Valid()
      ensures conn.images == old(conn.images)
      ensures conn.vectors == old(conn.vectors) + SavedRows(old(elements), NextVectorId(old(conn.vectors)))
      ensures elements == WithRowids(old(elements), NextVectorId(old(conn.vectors)))
      ensures old(elements) == [] ==> conn.lastInsertRowid == old(conn.lastInsertRowid)
      ensures old(elements) != [] ==> conn.lastInsertRowid == NextVectorId(old(conn.vectors)) + |old(elements)| - 1
    {
      elements := SaveElements(elements, conn);
    }
  }
}
