/** image.rs: an indexed image, its record in the `images` table and the
    semantic vector saved with it. */
module ImageRecord {
  import opened Common
  import opened Sqlite
  import opened SemanticVector

  /** The elements once every one of them names image `imageId`. */
  function Stamped(es: seq<Element>, imageId: nat): (r: seq<Element>)
    ensures |r| == |es|
  {
    if es == [] then [] else Stamped(es[..|es| - 1], imageId) + [es[|es| - 1].(imageId := imageId)]
  }

  /** Stamping sets the image id of every element and keeps everything
      else: length, order, ids and values. */
  lemma {:induction false} StampedSpec(es: seq<Element>, imageId: nat)
    ensures forall k :: 0 <= k < |es| ==> Stamped(es, imageId)[k] == Element(es[k].id, imageId, es[k].value)
    ensures Values(Stamped(es, imageId)) == Values(es)
    decreases |es|
  {
    if es != [] {
      StampedSpec(es[..|es| - 1], imageId);
    }
  }

  class Image {
    var id: nat
    var path: string
    var title: string
    var semanticVector: SemanticVec

    /** `Image::new(path, title)`: not saved (id 0), no vector yet. */
    constructor (path: string, title: string)
      ensures id == 0 && this.path == path && this.title == title
      ensures fresh(semanticVector) && semanticVector.elements == []
    {
      id := 0;
      this.path := path;
      this.title := title;
      semanticVector := new SemanticVec();
    }

    /** `set_semantic_vector(v)`: stamp this image's id onto every element
        of `v`, then take `v` as this image's vector. */
    method SetSemanticVector(v: SemanticVec)
      modifies this, v
      ensures semanticVector == v
      ensures v.elements == Stamped(old(v.elements), id)
      ensures id == old(id) && path == old(path) && title == old(title)
    {
      ghost var es := v.elements;
      for k := 0 to |v.elements|
        invariant id == old(id) && path == old(path) && title == old(title)
        invariant |v.elements| == |es|
        invariant forall j :: 0 <= j < k ==> v.elements[j] == Element(es[j].id, id, es[j].value)
        invariant forall j :: k <= j < |es| ==> v.elements[j] == es[j]
      {
        v.elements := v.elements[k := v.elements[k].(imageId := id)];
      }
      StampedSpec(es, id);
      semanticVector := v;
    }

    /** `impl Save for Image`: insert the image row; if that fails, return
        the error with nothing changed. Otherwise take the row's rowid as
        `id`, stamp it onto a copy of the vector, save the copy's rows and
        return the latest rowid. */
    method Save(conn: Connection) returns (r: Result<nat, SqlError>)
      requires conn.Valid()
      modifies this, conn
      ensures conn.Valid()
      ensures HasPath(old(conn.images), old(path)) ==>
        r == Err(UniqueViolation) && id == old(id) && semanticVector == old(semanticVector) &&
        conn.images == old(conn.images) && conn.vectors == old(conn.vectors)
      ensures !HasPath(old(conn.images), old(path)) ==>
        var row := NextImageId(old(conn.images));
        var base := NextVectorId(old(conn.vectors));
        var es := Stamped(old(semanticVector.elements), AsU32(row));
        id == AsU32(row) &&
        conn.images == old(conn.images) + [ImageRow(row, old(path), old(title))] &&
        conn.vectors == old(conn.vectors) + SavedRows(es, base) &&
        semanticVector.elements == WithRowids(es, base) &&
        r == Ok(AsU32(conn.lastInsertRowid)) &&
        (es == [] ==> conn.lastInsertRowid == row) &&
        (es != [] ==> conn.lastInsertRowid == base + |es| - 1)
      ensures path == old(path) && title == old(title)
    {
      var inserted := conn.InsertImage(path, title);
      if inserted.Err? {
        return Err(inserted.error);
      }
      id := AsU32(conn.lastInsertRowid);
      var copy := semanticVector.Clone();
      SetSemanticVector(copy);
      semanticVector.Save(conn);
      r := Ok(AsU32(conn.lastInsertRowid));
    }
  }
}
