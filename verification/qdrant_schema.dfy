/** The request records of the vector-store API: creating a collection, inserting a point,
    searching and deleting a document. Every record names its collection; the size, distance and
    limit fields carry range and pattern constraints. Vector components are modelled as the
    JSON numbers of this model (integers). */
module QdrantSchema {
  import opened Common
  import opened Json
  import opened Validation
  import opened Strings

  // ---------------------------------------------------------------- create collection

  datatype CreateCollection = CreateCollection(collectionName: string, vectorSize: int, distance: string)

  /** The two distance names the pattern `^(cosine|dot)$` admits. */
  predicate KnownDistance(s: string) {
    s == "cosine" || s == "dot"
  }

  /** A strictly positive integer. */
  function PositiveInt(v: Value): Option<int> {
    match LaxInt(v)
    case Some(n) => if n > 0 then Some(n) else None
    case None => None
  }

  /** The distance metric: one of the known names, given as text, and kept as given. */
  function DistanceOf(v: Value): (r: Option<string>)
    ensures r.Some? <==> v.Str? && KnownDistance(v.s)
    ensures r.Some? ==> v == Str(r.value)
  {
    match v
    case Str(s) => if KnownDistance(s) then Some(s) else None
    case _ => None
  }

  function ValidateCreateCollection(args: seq<(string, Value)>): (r: Result<CreateCollection, seq<string>>)
    ensures r.Ok? ==> r.value.vectorSize > 0 && KnownDistance(r.value.distance)
    ensures r.Ok? ==> Get(args, "collection_name") == Some(Str(r.value.collectionName))
    ensures r.Ok? ==> Get(args, "distance") == Some(Str(r.value.distance))
    ensures r.Ok? <==> (GivenAs(args, "collection_name", TextOf)
                        && GivenAs(args, "vector_size", PositiveInt)
                        && GivenAs(args, "distance", DistanceOf))
  {
    var name := Get(args, "collection_name");
    var size := Get(args, "vector_size");
    var distance := Get(args, "distance");
    var name := Required("collection_name", name, TextOf(name.GetOr(Null)));
    var size := Required("vector_size", size, PositiveInt(size.GetOr(Null)));
    var distance := Required("distance", distance, DistanceOf(distance.GetOr(Null)));
    var errors := Errs(name) + Errs(size) + Errs(distance);
    if errors != [] then Err(errors)
    else Ok(CreateCollection(name.value, size.value, distance.value))
  }

  /** `key` is present and its value is accepted by `coerce`. */
  predicate GivenAs<T>(args: seq<(string, Value)>, key: string, coerce: Value -> Option<T>) {
    Get(args, key).Some? && coerce(Get(args, key).value).Some?
  }

  // ---------------------------------------------------------------- insert point

  datatype InsertPoint = InsertPoint(collectionName: string, pointId: int, vector: seq<int>,
                                     payload: seq<(string, Value)>)

  /** A `List[float]` field in lax mode: a list each of whose items the lax number coercion
      accepts (numbers, booleans as 1 and 0, and strings spelling an integer), as the numbers
      they stand for. */
  function VectorOf(v: Value): (r: Option<seq<int>>)
    ensures r.Some? <==> v.Arr? && forall i :: 0 <= i < |v.items| ==> LaxInt(v.items[i]).Some?
    ensures r.Some? ==> |r.value| == |v.items|
    ensures r.Some? ==> forall i :: 0 <= i < |v.items| ==> LaxInt(v.items[i]) == Some(r.value[i])
  {
    match v
    case Arr(items) =>
      if forall i :: 0 <= i < |items| ==> LaxInt(items[i]).Some? then
        Some(seq(|items|, i requires 0 <= i < |items| => LaxInt(items[i]).value))
      else None
    case _ => None
  }

  /** The lax coercion admits booleans and numeric strings among the components, and refuses a
      list holding `null`. */
  lemma LaxVectorComponents()
    ensures VectorOf(Arr([Bool(true), Str("15"), Num(-2)])) == Some([1, 15, -2])
    ensures VectorOf(Arr([Num(1), Null])).None?
  {
    var items := [Bool(true), Str("15"), Num(-2)];
    assert LaxInt(Str("15")) == Some(15) by {
      assert AllDigits("15");
      assert "15"[..1] == "1";
      assert DigitsValue("15") == 15;
    }
    assert forall i :: 0 <= i < |items| ==> LaxInt(items[i]).Some?;
    assert seq(|items|, i requires 0 <= i < |items| => LaxInt(items[i]).value) == [1, 15, -2];
    var bad := [Num(1), Null];
    assert LaxInt(bad[1]).None?;
  }

  function PayloadOf(v: Value): Option<seq<(string, Value)>> {
    match v
    case Obj(entries) => Some(entries)
    case _ => None
  }

  function ValidateInsertPoint(args: seq<(string, Value)>): (r: Result<InsertPoint, seq<string>>)
    ensures r.Ok? <==> (GivenAs(args, "collection_name", TextOf) && GivenAs(args, "point_id", LaxInt)
                        && GivenAs(args, "vector", VectorOf) && GivenAs(args, "payload", PayloadOf))
    ensures r.Ok? ==> Get(args, "payload") == Some(Obj(r.value.payload))
  {
    var name := Get(args, "collection_name");
    var id := Get(args, "point_id");
    var vector := Get(args, "vector");
    var payload := Get(args, "payload");
    var name := Required("collection_name", name, TextOf(name.GetOr(Null)));
    var id := Required("point_id", id, LaxInt(id.GetOr(Null)));
    var vector := Required("vector", vector, VectorOf(vector.GetOr(Null)));
    var payload := Required("payload", payload, PayloadOf(payload.GetOr(Null)));
    var errors := Errs(name) + Errs(id) + Errs(vector) + Errs(payload);
    if errors != [] then Err(errors)
    else Ok(InsertPoint(name.value, id.value, vector.value, payload.value))
  }

  // ---------------------------------------------------------------- search points

  datatype SearchPoints = SearchPoints(collectionName: string, vector: seq<int>, limit: Option<int>)

  /** The result limit: `null` is accepted and left unset; a number must lie in 1..100. */
  function LimitOf(v: Value): (r: Option<Option<int>>)
    ensures v.Null? ==> r == Some(None)
    ensures !v.Null? ==> (r.Some? <==> LaxInt(v).Some? && 0 < LaxInt(v).value <= 100)
    ensures r.Some? && r.value.Some? ==> LaxInt(v) == r.value && 0 < r.value.value <= 100
  {
    if v.Null? then Some(None)
    else match LaxInt(v)
      case Some(n) => if 0 < n <= 100 then Some(Some(n)) else None
      case None => None
  }

  function ValidateSearchPoints(args: seq<(string, Value)>): (r: Result<SearchPoints, seq<string>>)
    ensures r.Ok? && r.value.limit.Some? ==> 0 < r.value.limit.value <= 100
    ensures r.Ok? && Get(args, "limit").None? ==> r.value.limit == Some(10)
    ensures r.Ok? && Get(args, "limit") == Some(Null) ==> r.value.limit.None?
    ensures r.Ok? <==> (GivenAs(args, "collection_name", TextOf) && GivenAs(args, "vector", VectorOf)
                        && (Get(args, "limit").None? || LimitOf(Get(args, "limit").value).Some?))
  {
    var name := Get(args, "collection_name");
    var vector := Get(args, "vector");
    var limit := Get(args, "limit");
    var name := Required("collection_name", name, TextOf(name.GetOr(Null)));
    var vector := Required("vector", vector, VectorOf(vector.GetOr(Null)));
    var limit := Field("limit", limit, Some(10), LimitOf(limit.GetOr(Null)));
    var errors := Errs(name) + Errs(vector) + Errs(limit);
    if errors != [] then Err(errors)
    else Ok(SearchPoints(name.value, vector.value, limit.value))
  }

  /** A limit outside 1..100 is refused and the failure names it. */
  lemma SearchLimitOutOfRange(args: seq<(string, Value)>, n: int)
    requires Get(args, "limit") == Some(Num(n))
    requires n <= 0 || n > 100
    ensures ValidateSearchPoints(args).Err?
    ensures "limit" in ValidateSearchPoints(args).error
  {
  }

  // ---------------------------------------------------------------- delete document

  datatype DeleteDocument = DeleteDocument(collectionName: string, fileName: string)

  function ValidateDeleteDocument(args: seq<(string, Value)>): (r: Result<DeleteDocument, seq<string>>)
    ensures r.Ok? <==> GivenAs(args, "collection_name", TextOf) && GivenAs(args, "file_name", TextOf)
    ensures r.Ok? ==> Get(args, "file_name") == Some(Str(r.value.fileName))
  {
    var name := Get(args, "collection_name");
    var file := Get(args, "file_name");
    var name := Required("collection_name", name, TextOf(name.GetOr(Null)));
    var file := Required("file_name", file, TextOf(file.GetOr(Null)));
    var errors := Errs(name) + Errs(file);
    if errors != [] then Err(errors) else Ok(DeleteDocument(name.value, file.value))
  }

  // ---------------------------------------------------------------- the shared requirement

  /** Every one of the four records names its collection: without `collection_name` each of them
      is refused, and the failure names that field. */
  lemma CollectionNameRequired(args: seq<(string, Value)>)
    requires Get(args, "collection_name").None?
    ensures ValidateCreateCollection(args).Err? && "collection_name" in ValidateCreateCollection(args).error
    ensures ValidateInsertPoint(args).Err? && "collection_name" in ValidateInsertPoint(args).error
    ensures ValidateSearchPoints(args).Err? && "collection_name" in ValidateSearchPoints(args).error
    ensures ValidateDeleteDocument(args).Err? && "collection_name" in ValidateDeleteDocument(args).error
  {
  }

  // ---------------------------------------------------------------- dumps and round trips

  function VectorValue(v: seq<int>): (r: Value)
    ensures VectorOf(r) == Some(v)
  {
    var r := Arr(seq(|v|, i requires 0 <= i < |v| => Num(v[i])));
    assert forall i :: 0 <= i < |r.items| ==> LaxInt(r.items[i]) == Some(v[i]);
    assert seq(|r.items|, i requires 0 <= i < |r.items| => LaxInt(r.items[i]).value) == v;
    r
  }

  /** A valid create request dumped to keyword form validates back to itself. */
  lemma CreateCollectionRoundTrip(c: CreateCollection)
    requires c.vectorSize > 0 && KnownDistance(c.distance)
    ensures ValidateCreateCollection([("collection_name", Str(c.collectionName)),
                                      ("vector_size", Num(c.vectorSize)),
                                      ("distance", Str(c.distance))]) == Ok(c)
  {
    var args := [("collection_name", Str(c.collectionName)), ("vector_size", Num(c.vectorSize)),
                 ("distance", Str(c.distance))];
    assert Get(args, "collection_name") == Some(Str(c.collectionName));
    assert Get(args, "vector_size") == Some(Num(c.vectorSize));
    assert Get(args[2..], "distance") == Some(Str(c.distance));
    assert Get(args, "distance") == Some(Str(c.distance));
  }

  /** A search request dumped to keyword form validates back to itself. */
  lemma SearchPointsRoundTrip(q: SearchPoints)
    requires q.limit.Some? ==> 0 < q.limit.value <= 100
    ensures ValidateSearchPoints([("collection_name", Str(q.collectionName)),
                                  ("vector", VectorValue(q.vector)),
                                  ("limit", IntValue(q.limit))]) == Ok(q)
  {
    var args := [("collection_name", Str(q.collectionName)), ("vector", VectorValue(q.vector)),
                 ("limit", IntValue(q.limit))];
    assert Get(args, "collection_name") == Some(Str(q.collectionName));
    assert Get(args, "vector") == Some(VectorValue(q.vector));
    assert Get(args[2..], "limit") == Some(IntValue(q.limit));
    assert Get(args, "limit") == Some(IntValue(q.limit));
  }
}
