/** The two tables the database layer creates, held in memory.

    `images` has `id INTEGER PRIMARY KEY` and `path TEXT NOT NULL UNIQUE`;
    `semantic_vectors` has `id INTEGER PRIMARY KEY`, an `image_id` and a
    `value`. Rows are only ever appended, so each table is a sequence in
    rowid order; an insert without an explicit id takes one more than the
    largest rowid in use, or 1 in an empty table. Foreign keys are not
    enforced (SQLite's default), so a vector row may name any image id. */
module Sqlite {
  import opened Common

  datatype ImageRow = ImageRow(id: nat, path: string, title: string)

  datatype VectorRow = VectorRow(id: nat, imageId: nat, value: real)

  /** The only way an insert into these tables can fail. */
  datatype SqlError = UniqueViolation

  /** Rowids are positive and strictly increase along the table. */
  ghost predicate ImageIdsIncrease(images: seq<ImageRow>)
  {
    (forall i :: 0 <= i < |images| ==> 0 < images[i].id) &&
    (forall i, j :: 0 <= i < j < |images| ==> images[i].id < images[j].id)
  }

  ghost predicate VectorIdsIncrease(vectors: seq<VectorRow>)
  {
    (forall i :: 0 <= i < |vectors| ==> 0 < vectors[i].id) &&
    (forall i, j :: 0 <= i < j < |vectors| ==> vectors[i].id < vectors[j].id)
  }

  /** The UNIQUE constraint on `images.path`. */
  ghost predicate PathsUnique(images: seq<ImageRow>)
  {
    forall i, j :: 0 <= i < j < |images| ==> images[i].path != images[j].path
  }

  predicate HasPath(images: seq<ImageRow>, path: string)
  {
    exists i :: 0 <= i < |images| && images[i].path == path
  }

  /** The rowid the next insert into `images` takes. */
  function NextImageId(images: seq<ImageRow>): (id: nat)
    requires ImageIdsIncrease(images)
    ensures id > 0
    ensures forall i :: 0 <= i < |images| ==> images[i].id < id
  {
    if images == [] then 1 else images[|images| - 1].id + 1
  }

  /** The rowid the next insert into `semantic_vectors` takes. */
  function NextVectorId(vectors: seq<VectorRow>): (id: nat)
    requires VectorIdsIncrease(vectors)
    ensures id > 0
    ensures forall i :: 0 <= i < |vectors| ==> vectors[i].id < id
  {
    if vectors == [] then 1 else vectors[|vectors| - 1].id + 1
  }

  class Connection {
    var images: seq<ImageRow>
    var vectors: seq<VectorRow>
    /** `last_insert_rowid()`: the rowid of the latest successful insert. */
    var lastInsertRowid: nat

    ghost predicate Valid()
      reads this
    {
      ImageIdsIncrease(images) && PathsUnique(images) && VectorIdsIncrease(vectors)
    }

    /** A connection to a database file whose tables already hold rows. */
    constructor (images: seq<ImageRow>, vectors: seq<VectorRow>)
      requires ImageIdsIncrease(images) && PathsUnique(images) && VectorIdsIncrease(vectors)
      ensures Valid()
      ensures this.images == images && this.vectors == vectors && lastInsertRowid == 0
    {
      this.images := images;
      this.vectors := vectors;
      lastInsertRowid := 0;
    }

    /** `INSERT INTO images (path, title) VALUES (?1, ?2)`: refused when the
        path is already stored; otherwise one row with the next rowid. */
    method InsertImage(path: string, title: string) returns (r: Result<(), SqlError>)
      requires Valid()
      modifies this
      ensures Valid()
      ensures vectors == old(vectors)
      ensures HasPath(old(images), path) ==> r == Err(UniqueViolation) && images == old(images) && lastInsertRowid == old(lastInsertRowid)
      ensures !HasPath(old(images), path) ==>
        r.Ok? && lastInsertRowid == NextImageId(old(images)) &&
        images == old(images) + [ImageRow(lastInsertRowid, path, title)]
    {
      if exists i :: 0 <= i < |images| && images[i].path == path {
        return Err(UniqueViolation);
      }
      var id := NextImageId(images);
      images := images + [ImageRow(id, path, title)];
      lastInsertRowid := id;
      r := Ok(());
    }

    /** `INSERT INTO semantic_vectors (image_id, value) VALUES (?1, ?2)`:
        nothing constrains these columns, so the insert always succeeds. */
    method InsertVector(imageId: nat, value: real)
      requires Valid()
      modifies this
      ensures Valid()
      ensures images == old(images)
      ensures lastInsertRowid == NextVectorId(old(vectors))
      ensures vectors == old(vectors) + [VectorRow(lastInsertRowid, imageId, value)]
    {
      var id := NextVectorId(vectors);
      vectors := vectors + [VectorRow(id, imageId, value)];
      lastInsertRowid := id;
    }
  }

  /** `SELECT ... FROM images WHERE path = ?1`: the matching rows. */
  function ImagesWithPath(images: seq<ImageRow>, path: string): (r: seq<ImageRow>)
    ensures |r| <= |images|
    ensures forall x :: x in r <==> x in images && x.path == path
  {
    if images == [] then []
    else
      var init := ImagesWithPath(images[..|images| - 1], path);
      var last := images[|images| - 1];
      assert images == images[..|images| - 1] + [last];
      if last.path == path then init + [last] else init
  }

  /** `SELECT ... FROM semantic_vectors WHERE image_id = ?1`: the matching
      rows, in table order. */
  function VectorsOf(vectors: seq<VectorRow>, imageId: nat): (r: seq<VectorRow>)
    ensures |r| <= |vectors|
    ensures forall x :: x in r <==> x in vectors && x.imageId == imageId
  {
    if vectors == [] then []
    else
      var init := VectorsOf(vectors[..|vectors| - 1], imageId);
      var last := vectors[|vectors| - 1];
      assert vectors == vectors[..|vectors| - 1] + [last];
      if last.imageId == imageId then init + [last] else init
  }

  /** Under the UNIQUE constraint a path selects at most one row, and it
      selects one exactly when it is stored. */
  lemma {:induction false} AtMostOneRowPerPath(images: seq<ImageRow>, path: string)
    requires PathsUnique(images)
    ensures |ImagesWithPath(images, path)| <= 1
    ensures |ImagesWithPath(images, path)| == 1 <==> HasPath(images, path)
    decreases |images|
  {
    if images != [] {
      var init := images[..|images| - 1];
      var last := images[|images| - 1];
      assert PathsUnique(init);
      AtMostOneRowPerPath(init, path);
      if last.path == path {
        assert !HasPath(init, path);
      }
      if HasPath(images, path) && last.path != path {
        var i :| 0 <= i < |images| && images[i].path == path;
        assert init[i].path == path;
      }
    }
  }
}
