/** The shared-study page (`SharedStudy`): the legend's schema label, the
    user a request is made for, the outcome of fetching one study (stored
    study, error, loading flag), the view chosen from that state, and the
    bookkeeping that puts the study's geometry on the map without duplicating
    its source or layer. The map is modelled as its sources and layers by id. */
module SharedStudy {
  import opened Wrappers
  import opened Js

  /** The legend label: `bike` for the `lts` schema, `sw` for any other. */
  function LegendSchema(propSchema: string): (legend: string)
    ensures legend == "bike" <==> propSchema == "lts"
    ensures legend == "sw" <==> propSchema != "lts"
  {
    if propSchema == "lts" then "bike" else "sw"
  }

  /** `user?.nickname || propUsername`: the signed-in user's nickname when it
      is present and non-empty, otherwise the name in the route. `nickname`
      is `None` when nobody is signed in or the profile has no nickname. */
  function RequestUsername(nickname: Option<string>, propUsername: string): (name: string)
    ensures nickname.Some? && nickname.value != "" ==> name == nickname.value
    ensures nickname.None? || nickname.value == "" ==> name == propUsername
  {
    match nickname
    case Some(n) => if n != "" then n else propUsername
    case None => propUsername
  }

  /** The request user is JavaScript's `||` of the nickname (`undefined` when
      absent) and the route's username. */
  lemma RequestUsernameIsOr(nickname: Option<string>, propUsername: string)
    ensures var nick: Value := if nickname.Some? then Some(JStr(nickname.value)) else None;
            Some(JStr(RequestUsername(nickname, propUsername))) == Or(nick, Some(JStr(propUsername)))
  {
  }

  // ---------------------------------------------------------------------------
  // Fetching the study
  // ---------------------------------------------------------------------------

  /** A reply to the study request: its `ok` flag and its decoded body, `None`
      when the body is not JSON. */
  datatype Response = Response(ok: bool, body: Option<Json>)

  /** The error the page records. `Thrown` covers a failed request, a body
      that is not JSON and a `TypeError` while reading `studies[0].shared`. */
  datatype FetchError = StudyNotFound | StudyNotShared | Thrown

  /** The message the page shows for an error; the runtime's own message for
      a thrown error is not modelled. */
  function ErrorMessage(e: FetchError): Option<string>
  {
    match e
    case StudyNotFound => Some("Study not found")
    case StudyNotShared => Some("Study not shared")
    case Thrown => None
  }

  datatype PageState = PageState(study: Option<Json>, loading: bool, error: Option<FetchError>)

  const InitialPage: PageState := PageState(None, true, None)

  /** `!data.studies[0].shared` read off the decoded body: `Failure` when a
      step reads a member of `null` or `undefined`. */
  function FirstStudyShared(data: Json): Result<bool, TypeError>
  {
    match GetProp(Some(data), "studies")
    case Failure(e) => Failure(e)
    case Success(studies) =>
      match GetProp(studies, "0")
      case Failure(e) => Failure(e)
      case Success(first) =>
        match GetProp(first, "shared")
        case Failure(e) => Failure(e)
        case Success(shared) => Success(Truthy(shared))
  }

  /** The page state after `fetchStudy` settles; `response` is `None` when
      the request itself threw. Whatever happens, loading ends. */
  function FetchStudy(s: PageState, response: Option<Response>): PageState
  {
    var settled := s.(loading := false);
    match response
    case None => settled.(error := Some(Thrown))
    case Some(r) =>
      if !r.ok then settled.(error := Some(StudyNotFound))
      else
        match r.body
        case None => settled.(error := Some(Thrown))
        case Some(data) =>
          match FirstStudyShared(data)
          case Failure(_) => settled.(error := Some(Thrown))
          case Success(shared) =>
            if !shared then settled.(error := Some(StudyNotShared))
            else settled.(study := Some(data))
  }

  /** The page stored the body exactly when the response was ok, decoded and
      its first study shared; a response that is not ok always reads "Study
      not found", an unshared first study "Study not shared". */
  lemma FetchStudySpec(response: Option<Response>)
    ensures var s := FetchStudy(InitialPage, response);
            && !s.loading
            && (s.error.None? <==> s.study.Some?)
            && (s.error == Some(StudyNotFound) <==> response.Some? && !response.value.ok)
            && (s.study.Some? <==>
                  response.Some? && response.value.ok && response.value.body.Some?
                  && FirstStudyShared(response.value.body.value) == Success(true))
            && (s.study.Some? ==> s.study == response.value.body)
            && (s.error == Some(StudyNotShared) <==>
                  response.Some? && response.value.ok && response.value.body.Some?
                  && FirstStudyShared(response.value.body.value) == Success(false))
  {
  }

  /** From any earlier state, a settled fetch ends loading and does what it
      does from the initial state: a success stores the body and leaves the
      error as it was; a failure sets the error and leaves the stored study
      as it was, even when the same error was already set. */
  lemma FetchStudyFrame(s: PageState, response: Option<Response>)
    ensures var f := FetchStudy(InitialPage, response);
            FetchStudy(s, response)
            == if f.study.Some? then s.(loading := false, study := f.study)
               else s.(loading := false, error := f.error)
    ensures !FetchStudy(s, response).loading
    ensures FetchStudy(s, response).error != s.error ==> FetchStudy(s, response).study == s.study
    ensures FetchStudy(s, response).study != s.study ==> FetchStudy(s, response).error == s.error
  {
  }

  /** A body whose first study is an object with `shared: true` is shared; a
      body without a `studies` member throws. */
  lemma FirstStudySharedExamples(rest: map<string, Json>)
    ensures FirstStudyShared(JObj(map["studies" := JArr([JObj(map["shared" := JBool(true)])])]))
            == Success(true)
    ensures "studies" !in rest ==> FirstStudyShared(JObj(rest)).Failure?
  {
    assert NatToDecimal(0) == "0";
    ArrayMemberAt([JObj(map["shared" := JBool(true)])], 0);
  }

  datatype View = ErrorView(error: FetchError) | StudyView(study: Option<Json>, loading: bool)

  /** An error replaces all content. */
  function Render(s: PageState): (v: View)
    ensures v.ErrorView? <==> s.error.Some?
    ensures s.error.Some? ==> v.error == s.error.value
    ensures s.error.None? ==> v == StudyView(s.study, s.loading)
  {
    match s.error
    case Some(e) => ErrorView(e)
    case None => StudyView(s.study, s.loading)
  }

  /** After the study fetch the page shows the error view exactly when no
      study was stored; a reply that is not ok shows "Study not found", and
      otherwise the stored body is shown with loading over. */
  lemma RenderAfterFetch(response: Option<Response>)
    ensures var s := FetchStudy(InitialPage, response);
            && (Render(s).ErrorView? <==> s.study.None?)
            && (response.Some? && !response.value.ok ==>
                  Render(s) == ErrorView(StudyNotFound) && ErrorMessage(Render(s).error) == Some("Study not found"))
            && (Render(s).StudyView? ==> Render(s) == StudyView(response.value.body, false))
  {
    FetchStudySpec(response);
  }

  // ---------------------------------------------------------------------------
  // The geometry layer
  // ---------------------------------------------------------------------------

  const GeomSourceId: string := "user_geoms"
  const GeomLayerId: string := "user_geoms"

  /** A layer: the source it draws and the layer it was inserted beneath. */
  datatype Layer = Layer(source: string, beneath: string)

  datatype MapState = MapState(sources: map<string, Json>, layers: map<string, Layer>)

  /** The base layer the geometry goes beneath: `lts` for the lts schema, `sw`
      otherwise. */
  function BeneathLayer(propSchema: string): (id: string)
    ensures id == "lts" <==> propSchema == "lts"
    ensures id == "sw" <==> propSchema != "lts"
  {
    if propSchema == "lts" then "lts" else "sw"
  }

  /** `addGeoJsonLayer`: with no map or no data nothing happens; otherwise the
      geometry source is created or has its data replaced, and the geometry
      layer is added unless it is already there. `map` is `None` before the
      map exists. */
  function AddGeoJsonLayer(m: Option<MapState>, data: Value, propSchema: string): Option<MapState>
  {
    if m.None? || !Truthy(data) then m
    else
      var sources := m.value.sources[GeomSourceId := data.value];
      var layers := if GeomLayerId in m.value.layers then m.value.layers
                    else m.value.layers[GeomLayerId := Layer(GeomSourceId, BeneathLayer(propSchema))];
      Some(MapState(sources, layers))
  }

  /** After the call the geometry source holds the data and the geometry layer
      exists; a layer already present is kept as it was; no other source or
      layer changes; with no map or no data the map is untouched. */
  lemma AddGeoJsonLayerSpec(m: Option<MapState>, data: Value, propSchema: string)
    ensures m.None? || !Truthy(data) ==> AddGeoJsonLayer(m, data, propSchema) == m
    ensures m.Some? && Truthy(data) ==>
              var after := AddGeoJsonLayer(m, data, propSchema).value;
              && after.sources.Keys == m.value.sources.Keys + {GeomSourceId}
              && after.sources[GeomSourceId] == data.value
              && (forall id :: id in m.value.sources && id != GeomSourceId ==>
                    after.sources[id] == m.value.sources[id])
              && after.layers.Keys == m.value.layers.Keys + {GeomLayerId}
              && (forall id :: id in m.value.layers ==> after.layers[id] == m.value.layers[id])
              && (GeomLayerId !in m.value.layers ==>
                    after.layers[GeomLayerId] == Layer(GeomSourceId, BeneathLayer(propSchema)))
  {
  }

  /** Adding the geometry twice leaves the map as adding it once. */
  lemma AddGeoJsonLayerIdempotent(m: Option<MapState>, data: Value, propSchema: string)
    ensures AddGeoJsonLayer(AddGeoJsonLayer(m, data, propSchema), data, propSchema)
            == AddGeoJsonLayer(m, data, propSchema)
  {
    if m.Some? && Truthy(data) {
      var once := AddGeoJsonLayer(m, data, propSchema).value;
      assert once.sources[GeomSourceId := data.value] == once.sources;
    }
  }

  /** The layer the geometry goes beneath and the legend agree on the schema. */
  lemma BeneathLayerMatchesLegend(propSchema: string)
    ensures BeneathLayer(propSchema) == "lts" <==> LegendSchema(propSchema) == "bike"
  {
  }
}
