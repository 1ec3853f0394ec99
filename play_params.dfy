/**
  The search parameters of the play page (apps/client/app/play/page.tsx): a world is named
  either by its id, `?id=...`, which must be exactly as long as a world id, or by a uri,
  `?uri=...`, which must start with "https://". The id form is tried first. Parsing that fails
  makes the page answer "not found" and its metadata empty; fetching the world and rendering
  it are outside the model.

  WORLD_ID_LENGTH is defined in a module that is not part of this model, so it is the parameter
  `idLength`. String lengths are counted in characters.
*/
module PlayParams {
  import opened Wrappers
  import opened Zod

  const HttpsPrefix: string := "https://"

  function IdSchema(idLength: nat): Schema
  {
    ZRefine(ZString, LengthIs(idLength))
  }

  const HttpsSchema: Schema := ZRefine(ZString, StartsWith(HttpsPrefix))

  function IdForm(idLength: nat): Schema
  {
    ZObject([Field("id", IdSchema(idLength))])
  }

  const UriForm: Schema := ZObject([Field("uri", HttpsSchema)])

  function SearchParamsSchema(idLength: nat): Schema
  {
    ZUnion(IdForm(idLength), UriForm)
  }

  /** `searchParamsSchema.safeParse(searchParams)`: the first form of the union that accepts
      the parameters, with the keys that form does not declare stripped. */
  function SafeParse(idLength: nat, searchParams: Value): (r: Option<map<string, Value>>)
    ensures r.Some? <==> Accepts(SearchParamsSchema(idLength), searchParams)
    ensures r.Some? ==> r.value.Keys == {"id"} || r.value.Keys == {"uri"}
  {
    if Accepts(IdForm(idLength), searchParams) then Some(map["id" := Get(searchParams.fields, "id")])
    else if Accepts(UriForm, searchParams) then Some(map["uri" := Get(searchParams.fields, "uri")])
    else None
  }

  /** A world named by id or by uri. */
  datatype WorldUriId = WorldId(value: string) | WorldUri(value: string)

  /** `parseParams`: the id form when the parsed parameters have an `id`, the uri form otherwise. */
  function ParseParams(params: map<string, Value>): (r: WorldUriId)
    requires "id" in params ==> params["id"].Str?
    requires "id" !in params ==> "uri" in params && params["uri"].Str?
  {
    if "id" in params then WorldId(params["id"].s) else WorldUri(params["uri"].s)
  }

  /** What `Play` and `generateMetadata` go on with: the world the parameters name, or nothing
      (then "not found", and empty metadata). */
  function Requested(idLength: nat, searchParams: Value): Option<WorldUriId>
  {
    var parsed := SafeParse(idLength, searchParams);
    if parsed.None? then None
    else
      ParsedShape(idLength, searchParams);
      Some(ParseParams(parsed.value))
  }

  /** The parsed parameters carry a string under the one key they keep. */
  lemma ParsedShape(idLength: nat, searchParams: Value)
    requires SafeParse(idLength, searchParams).Some?
    ensures var p := SafeParse(idLength, searchParams).value;
            "id" in p ==> p["id"].Str?
    ensures var p := SafeParse(idLength, searchParams).value;
            "id" !in p ==> "uri" in p && p["uri"].Str?
  {
    var shape := IdForm(idLength).shape;
    if Accepts(IdForm(idLength), searchParams) {
      assert Accepts(shape[0].schema, Get(searchParams.fields, shape[0].key));
    } else {
      var shape' := UriForm.shape;
      assert Accepts(shape'[0].schema, Get(searchParams.fields, shape'[0].key));
    }
  }

  /** An id parameter: a string exactly `idLength` long (a repeated parameter is an array and
      does not count). */
  predicate ValidId(idLength: nat, searchParams: Value)
  {
    searchParams.Object? && Get(searchParams.fields, "id").Str? && |Get(searchParams.fields, "id").s| == idLength
  }

  /** A uri parameter: a string starting with "https://". */
  predicate ValidUri(searchParams: Value)
  {
    searchParams.Object? && Get(searchParams.fields, "uri").Str? && HttpsPrefix <= Get(searchParams.fields, "uri").s
  }

  lemma IdFormAccepts(idLength: nat, searchParams: Value)
    ensures Accepts(IdForm(idLength), searchParams) <==> ValidId(idLength, searchParams)
  {
    var shape := IdForm(idLength).shape;
    if searchParams.Object? {
      assert Accepts(shape[0].schema, Get(searchParams.fields, shape[0].key)) <==> ValidId(idLength, searchParams);
    }
  }

  lemma UriFormAccepts(searchParams: Value)
    ensures Accepts(UriForm, searchParams) <==> ValidUri(searchParams)
  {
    var shape := UriForm.shape;
    if searchParams.Object? {
      assert Accepts(shape[0].schema, Get(searchParams.fields, shape[0].key)) <==> ValidUri(searchParams);
    }
  }

  /** The page goes on with the world id `x` exactly when the `id` parameter is `x` and has the
      length of a world id, whatever the `uri` parameter holds. */
  lemma RequestedById(idLength: nat, searchParams: Value, x: string)
    ensures Requested(idLength, searchParams) == Some(WorldId(x)) <==>
            ValidId(idLength, searchParams) && Get(searchParams.fields, "id") == Str(x)
  {
    IdFormAccepts(idLength, searchParams);
    UriFormAccepts(searchParams);
  }

  /** The page goes on with the uri `u` exactly when the id form fails and the `uri` parameter
      is `u` and starts with "https://": an `id` parameter of the wrong length is stripped, not
      taken for an id. */
  lemma RequestedByUri(idLength: nat, searchParams: Value, u: string)
    ensures Requested(idLength, searchParams) == Some(WorldUri(u)) <==>
            !ValidId(idLength, searchParams) && ValidUri(searchParams) && Get(searchParams.fields, "uri") == Str(u)
  {
    IdFormAccepts(idLength, searchParams);
    UriFormAccepts(searchParams);
  }

  /** Parameters that are neither a valid id nor a valid uri lead to "not found". */
  lemma RequestedNothing(idLength: nat, searchParams: Value)
    ensures Requested(idLength, searchParams).None? <==>
            !ValidId(idLength, searchParams) && !ValidUri(searchParams)
  {
    IdFormAccepts(idLength, searchParams);
    UriFormAccepts(searchParams);
  }
}
