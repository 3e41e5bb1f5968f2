/** azure_api.rs: the address of an image-analysis request, and the parse
    of the service's JSON answer into a caption and a list of labels.

    JSON values follow serde_json's `Value`: indexing with `value[key]`
    never panics and yields `Null` for a missing field or a non-object,
    while `get(key)` says whether the field is there. Numbers are exact
    reals here; `as_f64` accepts every number. */
module AzureApi {
  import opened Common

  datatype Json =
    | Null
    | Bool(b: bool)
    | Number(n: real)
    | String(s: string)
    | Array(items: seq<Json>)
    | Object(fields: map<string, Json>)

  /** `value[key]` */
  function Index(v: Json, key: string): Json
  {
    if v.Object? && key in v.fields then v.fields[key] else Null
  }

  /** `value.get(key)` */
  function Get(v: Json, key: string): Option<Json>
  {
    if v.Object? && key in v.fields then Some(v.fields[key]) else None
  }

  function AsStr(v: Json): Option<string>
  {
    if v.String? then Some(v.s) else None
  }

  function AsF64(v: Json): Option<real>
  {
    if v.Number? then Some(v.n) else None
  }

  function AsArray(v: Json): Option<seq<Json>>
  {
    if v.Array? then Some(v.items) else None
  }

  /** Indexing and `get` agree: a present field is the same value either
      way, and indexing yields `Null` exactly where `get` finds nothing, so a
      missing field never reads as a string or a number. */
  lemma IndexAgreesWithGet(v: Json, key: string)
    ensures Get(v, key).Some? ==> Index(v, key) == Get(v, key).value
    ensures Get(v, key).None? ==> Index(v, key) == Null && AsStr(Index(v, key)).None? && AsF64(Index(v, key)).None?
  {
  }

  /** The fixed part of every request address; the feature names follow it. */
  const Endpoint: string :=
    "https://file-search-rust-paid.cognitiveservices.azure.com/computervision/imageanalysis:analyze?api-version=2024-02-01&features="

  /** `parts.join(sep)` */
  function Join(parts: seq<string>, sep: string): string
  {
    if parts == [] then ""
    else if |parts| == 1 then parts[0]
    else parts[0] + sep + Join(parts[1..], sep)
  }

  /** Cutting a string at every `c`: the pieces between the separators, the
      empty ones included, so there is always one more piece than there are
      separators. */
  function Split(s: string, c: char): (pieces: seq<string>)
    ensures |pieces| > 0
  {
    if s == [] then [""]
    else if s[0] == c then [""] + Split(s[1..], c)
    else
      var rest := Split(s[1..], c);
      [[s[0]] + rest[0]] + rest[1..]
  }

  /** A string without the separator is a single piece. */
  lemma {:induction false} SplitWithoutSeparator(s: string, c: char)
    requires c !in s
    ensures Split(s, c) == [s]
    decreases |s|
  {
    if s != [] {
      SplitWithoutSeparator(s[1..], c);
      assert [s[0]] + s[1..] == s;
    }
  }

  /** A piece without the separator, then the separator: the piece comes off
      the front of the split. */
  lemma {:induction false} SplitAfterPiece(a: string, c: char, rest: string)
    requires c !in a
    ensures Split(a + [c] + rest, c) == [a] + Split(rest, c)
    decreases |a|
  {
    if a == [] {
      assert a + [c] + rest == [c] + rest;
      assert ([c] + rest)[1..] == rest;
    } else {
      assert (a + [c] + rest)[1..] == a[1..] + [c] + rest;
      SplitAfterPiece(a[1..], c, rest);
      assert [a[0]] + a[1..] == a;
    }
  }

  /** Joining feature names that hold no comma loses nothing: cutting the
      joined text at the commas gives the names back. */
  lemma {:induction false} SplitJoin(parts: seq<string>)
    requires |parts| > 0
    requires forall k :: 0 <= k < |parts| ==> ',' !in parts[k]
    ensures Split(Join(parts, ","), ',') == parts
    decreases |parts|
  {
    if |parts| == 1 {
      SplitWithoutSeparator(parts[0], ',');
    } else {
      SplitJoin(parts[1..]);
      SplitAfterPiece(parts[0], ',', Join(parts[1..], ","));
      assert [parts[0]] + parts[1..] == parts;
    }
  }

  /** The address `AzureRequest::new` builds. */
  function RequestAddress(features: seq<string>): string
  {
    Endpoint + Join(features, ",")
  }

  /** The address is the endpoint followed by exactly the requested
      features, in order; with none requested it is the bare endpoint. */
  lemma FeaturesOfAddress(features: seq<string>)
    requires forall k :: 0 <= k < |features| ==> ',' !in features[k]
    ensures RequestAddress(features)[..|Endpoint|] == Endpoint
    ensures features == [] ==> RequestAddress(features) == Endpoint
    ensures features != [] ==> Split(RequestAddress(features)[|Endpoint|..], ',') == features
  {
    var addr := RequestAddress(features);
    assert addr[|Endpoint|..] == Join(features, ",");
    if features != [] {
      SplitJoin(features);
    }
  }

  /** A byte a header value accepts: visible ASCII, tab, or any byte of a
      multi-byte UTF-8 character. */
  predicate HeaderChar(c: char)
  {
    (c >= ' ' && c != '\U{7F}') || c == '\t'
  }

  datatype AzureRequest = AzureRequest(key: string, contentType: string, img: seq<bv8>, address: string)

  /** `AzureRequest::new(key, features)`: the subscription key becomes a
      header (`unwrap` panics when it holds a byte a header refuses), the
      body starts empty and the address names the features. */
  function NewRequest(key: string, features: seq<string>): (r: Run<AzureRequest>)
    ensures r.Panicked? <==> exists i :: 0 <= i < |key| && !HeaderChar(key[i])
    ensures r.Done? ==> r.value.img == [] && r.value.key == key && r.value.address == RequestAddress(features)
  {
    if forall i :: 0 <= i < |key| ==> HeaderChar(key[i]) then
      Done(AzureRequest(key, "application/octet-stream", [], RequestAddress(features)))
    else
      Panicked
  }

  datatype Label = Label(name: string, score: real)

  /** `From<&Value> for Label`: `name` must be a string and `confidence` a
      number, or the `unwrap`s panic. */
  function LabelFrom(v: Json): Run<Label>
  {
    var name := AsStr(Index(v, "name"));
    var score := AsF64(Index(v, "confidence"));
    if name.None? || score.None? then Panicked else Done(Label(name.value, score.value))
  }

  /** A label as the service writes it. */
  function LabelJson(l: Label): Json
  {
    Object(map["name" := String(l.name), "confidence" := Number(l.score)])
  }

  /** `Label::from` reads back exactly what the service wrote, and panics
      on an element whose name or confidence is missing or mistyped. */
  lemma LabelRoundTrip(l: Label, v: Json)
    ensures LabelFrom(LabelJson(l)) == Done(l)
    ensures LabelFrom(v).Panicked? <==> AsStr(Index(v, "name")).None? || AsF64(Index(v, "confidence")).None?
  {
    assert Index(LabelJson(l), "name") == String(l.name);
    assert Index(LabelJson(l), "confidence") == Number(l.score);
  }

  /** The labels of a list of elements, each read as `Label::from` reads it. */
  function LabelsFrom(items: seq<Json>): Run<seq<Label>>
  {
    if items == [] then Done([])
    else
      var init := LabelsFrom(items[..|items| - 1]);
      var last := LabelFrom(items[|items| - 1]);
      if init.Panicked? || last.Panicked? then Panicked else Done(init.value + [last.value])
  }

  /** One label per element, in order, unless some element is malformed. */
  lemma {:induction false} LabelsFromSpec(items: seq<Json>)
    ensures LabelsFrom(items).Panicked? <==> exists k :: 0 <= k < |items| && LabelFrom(items[k]).Panicked?
    ensures LabelsFrom(items).Done? ==>
      |LabelsFrom(items).value| == |items| &&
      forall k :: 0 <= k < |items| ==> LabelsFrom(items).value[k] == LabelFrom(items[k]).value
    decreases |items|
  {
    if items != [] {
      var init := items[..|items| - 1];
      LabelsFromSpec(init);
      if LabelsFrom(init).Panicked? {
        var k :| 0 <= k < |init| && LabelFrom(init[k]).Panicked?;
        assert items[k] == init[k];
      }
      if LabelsFrom(items).Panicked? && LabelFrom(items[|items| - 1]).Done? {
        var k :| 0 <= k < |init| && LabelFrom(init[k]).Panicked?;
        assert items[k] == init[k];
      }
    }
  }

  datatype ErrorKind = NotFound

  datatype AzureResponse = AzureResponse(caption: string, labels: seq<Label>)

  /** `value["captionResult"]["text"].as_str()` */
  function Caption(value: Json): Option<string>
  {
    AsStr(Index(Index(value, "captionResult"), "text"))
  }

  /** `value["tagsResult"].get("values")` */
  function Tags(value: Json): Option<Json>
  {
    Get(Index(value, "tagsResult"), "values")
  }

  /** What `AzureResponse::try_from` makes of a value: the caption is
      checked first, then the presence of the tag list; a tag list that is
      not an array, or a malformed element, panics. */
  function Decode(value: Json): Run<Result<AzureResponse, ErrorKind>>
  {
    var caption := Caption(value);
    var tags := Tags(value);
    if caption.None? then Done(Err(NotFound))
    else if tags.None? then Done(Err(NotFound))
    else if AsArray(tags.value).None? then Panicked
    else
      var labels := LabelsFrom(AsArray(tags.value).value);
      if labels.Panicked? then Panicked else Done(Ok(AzureResponse(caption.value, labels.value)))
  }

  /** The three outcomes of the parse. `NotFound` exactly when the caption
      text or the tag list is missing; a panic exactly when both are there
      but the tags are not an array or some tag is malformed; otherwise the
      caption and one label per tag, in order. */
  lemma DecodeOutcomes(value: Json)
    ensures Decode(value) == Done(Err(NotFound)) <==> Caption(value).None? || Tags(value).None?
    ensures Decode(value).Panicked? <==>
      Caption(value).Some? && Tags(value).Some? &&
      (AsArray(Tags(value).value).None? ||
       exists k :: 0 <= k < |Tags(value).value.items| && LabelFrom(Tags(value).value.items[k]).Panicked?)
    ensures Decode(value).Done? && Decode(value).value.Ok? ==>
      var items := Tags(value).value.items;
      var r := Decode(value).value.value;
      Caption(value) == Some(r.caption) && |r.labels| == |items| &&
      forall k :: 0 <= k < |items| ==> r.labels[k] == LabelFrom(items[k]).value
  {
    if Tags(value).Some? && AsArray(Tags(value).value).Some? {
      LabelsFromSpec(Tags(value).value.items);
    }
  }

  /** A response as the service writes it. */
  function ResponseJson(r: AzureResponse): Json
  {
    var tags := seq(|r.labels|, k requires 0 <= k < |r.labels| => LabelJson(r.labels[k]));
    Object(map[
      "captionResult" := Object(map["text" := String(r.caption)]),
      "tagsResult" := Object(map["values" := Array(tags)])])
  }

  /** Round trip: parsing what the service writes gives back its caption and
      all its labels, in order. */
  lemma DecodeResponseJson(r: AzureResponse)
    ensures Decode(ResponseJson(r)) == Done(Ok(r))
  {
    var v := ResponseJson(r);
    var tags := seq(|r.labels|, k requires 0 <= k < |r.labels| => LabelJson(r.labels[k]));
    assert Caption(v) == Some(r.caption);
    assert Tags(v) == Some(Array(tags));
    forall k | 0 <= k < |tags|
      ensures LabelFrom(tags[k]) == Done(r.labels[k])
    {
      LabelRoundTrip(r.labels[k], tags[k]);
    }
    LabelsFromSpec(tags);
    assert LabelsFrom(tags).value == r.labels;
  }

  /** `TryFrom<Value> for AzureResponse`: check the caption, then the tag
      list, then push one label per tag, reading each field with `get` and
      `unwrap`. */
  method TryFrom(value: Json) returns (r: Run<Result<AzureResponse, ErrorKind>>)
    ensures r == Decode(value)
  {
    var caption := AsStr(Index(Index(value, "captionResult"), "text"));
    if caption.None? {
      return Done(Err(NotFound));
    }
    var values := Get(Index(value, "tagsResult"), "values");
    if values.None? {
      return Done(Err(NotFound));
    }
    var valueIt := AsArray(values.value);
    if valueIt.None? {
      return Panicked;
    }
    var items := valueIt.value;
    var labels: seq<Label> := [];
    for i := 0 to |items|
      invariant LabelsFrom(items[..i]) == Done(labels)
    {
      assert items[..i + 1][..i] == items[..i];
      var item := items[i];
      IndexAgreesWithGet(item, "name");
      IndexAgreesWithGet(item, "confidence");
      var name := Get(item, "name");
      if name.None? || AsStr(name.value).None? {
        LabelsFromSpec(items);
        return Panicked;
      }
      var confidence := Get(item, "confidence");
      if confidence.None? || AsF64(confidence.value).None? {
        LabelsFromSpec(items);
        return Panicked;
      }
      labels := labels + [Label(AsStr(name.value).value, AsF64(confidence.value).value)];
    }
    assert items[..|items|] == items;
    r := Done(Ok(AzureResponse(caption.value, labels)));
  }
}
