/** The `load_model` helper and the body of `predict`: the model artifact is looked up by a file name built from
    the request's model id, a missing file becomes a 404 error, and the four
    measurements are laid out as a one-row frame in a fixed column order
    before the loaded model is asked for its prediction. */
module Prediction {
  import opened Wrappers
  import opened Text
  import opened Decimal

  const PathPrefix := "models/model_v"
  const PathSuffix := ".joblib"
  const DetailPrefix := "Model with ID "
  const DetailSuffix := " not found"

  /** Where the artifact for `modelId` is stored: the id itself, in decimal,
      between the fixed prefix and extension, with no offset or lookup. */
  function ModelPath(modelId: int): string
  {
    PathPrefix + IntToString(modelId) + PathSuffix
  }

  /** The model id a path names, or None for a path that is not an artifact
      path. */
  function ParseModelPath(path: string): Option<int>
  {
    match Between(path, PathPrefix, PathSuffix)
    case None => None
    case Some(middle) => ParseInt(middle)
  }

  lemma ModelPathRoundTrip(modelId: int)
    ensures ParseModelPath(ModelPath(modelId)) == Some(modelId)
  {
    BetweenOfConcat(PathPrefix, IntToString(modelId), PathSuffix);
    IntToStringRoundTrip(modelId);
  }

  /** Only the paths ModelPath builds are read as artifact paths. */
  lemma ParseModelPathExact(path: string, modelId: int)
    requires ParseModelPath(path) == Some(modelId)
    ensures ModelPath(modelId) == path
  {
    var middle := Between(path, PathPrefix, PathSuffix).value;
    ParseIntOnlyRenderings(middle, modelId);
  }

  /** Two ids never share an artifact file. */
  lemma ModelPathInjective(a: int, b: int)
    requires ModelPath(a) == ModelPath(b)
    ensures a == b
  {
    ModelPathRoundTrip(a);
    ModelPathRoundTrip(b);
  }

  /** The HTTP error raised to the client. */
  datatype HttpError = HttpError(statusCode: int, detail: string)

  function NotFoundDetail(modelId: int): string
  {
    DetailPrefix + IntToString(modelId) + DetailSuffix
  }

  /** The id a not-found message names. */
  function DetailModelId(detail: string): Option<int>
  {
    match Between(detail, DetailPrefix, DetailSuffix)
    case None => None
    case Some(middle) => ParseInt(middle)
  }

  /** Loading a model. The artifact store is a map from file path to the
      deserialized model; a path outside it is a missing file. */
  function LoadModel<M>(files: map<string, M>, modelId: int): (r: Result<M, HttpError>)
    ensures r.Success? <==> ModelPath(modelId) in files
    ensures r.Success? ==> r.value == files[ModelPath(modelId)]
    ensures r.Failure? ==> r.error.statusCode == 404 && DetailModelId(r.error.detail) == Some(modelId)
  {
    var path := ModelPath(modelId);
    if path in files then
      Success(files[path])
    else
      NotFoundDetailNamesId(modelId);
      Failure(HttpError(404, NotFoundDetail(modelId)))
  }

  lemma NotFoundDetailNamesId(modelId: int)
    ensures DetailModelId(NotFoundDetail(modelId)) == Some(modelId)
  {
    BetweenOfConcat(DetailPrefix, IntToString(modelId), DetailSuffix);
    IntToStringRoundTrip(modelId);
  }

  /** The request body; the four measurements are opaque values of type F. */
  datatype PredictionRequest<F> = PredictionRequest(
    modelId: int,
    billLengthMm: F,
    billDepthMm: F,
    flipperLengthMm: F,
    bodyMassG: F)

  const FeatureColumns: seq<string> := ["bill_length_mm", "bill_depth_mm", "flipper_length_mm", "body_mass_g"]

  /** A measurement of the request by its field name, as attribute access
      reads it; None for a name that is not a measurement field. */
  function RequestField<F>(req: PredictionRequest<F>, name: string): Option<F>
  {
    if name == "bill_length_mm" then Some(req.billLengthMm)
    else if name == "bill_depth_mm" then Some(req.billDepthMm)
    else if name == "flipper_length_mm" then Some(req.flipperLengthMm)
    else if name == "body_mass_g" then Some(req.bodyMassG)
    else None
  }

  /** The one-row frame handed to the model: the column names paired, in
      order, with the values listed positionally. */
  function FeatureRow<F>(req: PredictionRequest<F>): seq<(string, F)>
  {
    var values := [req.billLengthMm, req.billDepthMm, req.flipperLengthMm, req.bodyMassG];
    seq(|FeatureColumns|, k requires 0 <= k < |FeatureColumns| => (FeatureColumns[k], values[k]))
  }

  /** The value of the first column named `name`. */
  function Lookup<F>(row: seq<(string, F)>, name: string): Option<F>
  {
    if row == [] then None
    else if row[0].0 == name then Some(row[0].1)
    else Lookup(row[1..], name)
  }

  /** The frame has four columns in the fixed order, and position k holds the
      request field that column k names. */
  lemma FeatureRowLayout<F>(req: PredictionRequest<F>)
    ensures |FeatureRow(req)| == 4
    ensures forall k :: 0 <= k < 4 ==>
      FeatureRow(req)[k].0 == FeatureColumns[k] && RequestField(req, FeatureColumns[k]) == Some(FeatureRow(req)[k].1)
  {
  }

  /** Read by column name, the frame agrees with the request read by field
      name, for every name: the binding is by name, not by accident of
      position. */
  lemma FeatureRowByName<F>(req: PredictionRequest<F>, name: string)
    ensures Lookup(FeatureRow(req), name) == RequestField(req, name)
  {
    var row := FeatureRow(req);
    assert row == [("bill_length_mm", req.billLengthMm), ("bill_depth_mm", req.billDepthMm),
                   ("flipper_length_mm", req.flipperLengthMm), ("body_mass_g", req.bodyMassG)];
    var r1, r2, r3 := row[1..], row[2..], row[3..];
    assert r1[1..] == r2 && r2[1..] == r3 && r3[1..] == [];
    assert Lookup(r3, name) == if name == "body_mass_g" then Some(req.bodyMassG) else None;
    assert Lookup(r2, name) == if name == "flipper_length_mm" then Some(req.flipperLengthMm) else Lookup(r3, name);
    assert Lookup(r1, name) == if name == "bill_depth_mm" then Some(req.billDepthMm) else Lookup(r2, name);
  }

  /** The whole prediction: load the artifact, build the frame, and apply the
      model's opaque inference to it. */
  function Predict<M, F, R>(files: map<string, M>, infer: (M, seq<(string, F)>) -> R, req: PredictionRequest<F>): (r: Result<R, HttpError>)
    ensures r.Success? <==> ModelPath(req.modelId) in files
    ensures r.Success? ==> r.value == infer(files[ModelPath(req.modelId)], FeatureRow(req))
    ensures r.Failure? ==> r.error.statusCode == 404 && DetailModelId(r.error.detail) == Some(req.modelId)
  {
    match LoadModel(files, req.modelId)
    case Failure(e) => Failure(e)
    case Success(model) => Success(infer(model, FeatureRow(req)))
  }

  /** The frame determines all four measurements: two requests give the same
      frame only when every measurement agrees, so any reordering that moves
      a value onto a field holding a different one changes the frame. */
  lemma FeatureRowDeterminesMeasurements<F>(a: PredictionRequest<F>, b: PredictionRequest<F>)
    requires FeatureRow(a) == FeatureRow(b)
    ensures a.billLengthMm == b.billLengthMm && a.billDepthMm == b.billDepthMm
    ensures a.flipperLengthMm == b.flipperLengthMm && a.bodyMassG == b.bodyMassG
  {
    assert FeatureRow(a)[0].1 == FeatureRow(b)[0].1;
    assert FeatureRow(a)[1].1 == FeatureRow(b)[1].1;
    assert FeatureRow(a)[2].1 == FeatureRow(b)[2].1;
    assert FeatureRow(a)[3].1 == FeatureRow(b)[3].1;
  }

  /** Swapping the two bill measurements, when they differ, changes the frame
      the model sees. */
  lemma FeatureRowOrderSensitive<F>(req: PredictionRequest<F>)
    requires req.billLengthMm != req.billDepthMm
    ensures FeatureRow(req.(billLengthMm := req.billDepthMm, billDepthMm := req.billLengthMm)) != FeatureRow(req)
  {
    var swapped := req.(billLengthMm := req.billDepthMm, billDepthMm := req.billLengthMm);
    assert FeatureRow(swapped)[0].1 != FeatureRow(req)[0].1;
  }
}
