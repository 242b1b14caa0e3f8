/** The read query of the `fetch_model` helper: one of two constant texts, with the
    model id, when given, passed as a bound parameter and never written into
    the text. */
module ModelTable {
  import opened Wrappers
  import opened Decimal

  /** A query text and the values bound to its `?` placeholders, in order. */
  datatype SqlQuery = SqlQuery(text: string, params: seq<int>)

  const AllModelsQuery := "SELECT * FROM MODEL"
  const ModelByIdQuery := "SELECT * FROM MODEL WHERE model_id = ?"

  function FetchModelQuery(modelId: Option<int>): SqlQuery
  {
    if modelId.Some? then SqlQuery(ModelByIdQuery, [modelId.value]) else SqlQuery(AllModelsQuery, [])
  }

  /** The id the query selects, read from its bound parameters alone. */
  function BoundModelId(q: SqlQuery): Option<int>
  {
    if |q.params| == 1 then Some(q.params[0]) else None
  }

  /** Positions of the `?` placeholders in a query text. */
  function Placeholders(text: string): set<nat>
  {
    set k: nat | k < |text| && text[k] == '?'
  }

  /** The requested id, and nothing else, is what the parameters carry
      (absent id, no parameter; given id, exactly that one), and there are as
      many parameters as the text has placeholders. */
  lemma BoundIdRoundTrip(modelId: Option<int>)
    ensures BoundModelId(FetchModelQuery(modelId)) == modelId
    ensures |FetchModelQuery(modelId).params| == |Placeholders(FetchModelQuery(modelId).text)|
  {
    if modelId.Some? {
      var head := "SELECT * FROM MODEL WHERE model_id = ";
      assert '?' !in head;
      assert ModelByIdQuery == head + "?";
      forall k: nat | k < |ModelByIdQuery| - 1
        ensures ModelByIdQuery[k] != '?'
      {
        assert ModelByIdQuery[k] == head[k];
      }
      assert Placeholders(ModelByIdQuery) == {|ModelByIdQuery| - 1};
    } else {
      assert '?' !in AllModelsQuery;
      forall k: nat | k < |AllModelsQuery|
        ensures AllModelsQuery[k] != '?'
      {
        assert AllModelsQuery[k] in AllModelsQuery;
      }
      assert Placeholders(AllModelsQuery) == {};
    }
  }

  /** The text never depends on which id was asked for. */
  lemma TextIndependentOfId(a: int, b: int)
    ensures FetchModelQuery(Some(a)).text == FetchModelQuery(Some(b)).text
    ensures FetchModelQuery(Some(a)).text != FetchModelQuery(None).text
  {
    assert |ModelByIdQuery| != |AllModelsQuery|;
  }

  lemma TextsHoldNoDigit()
    ensures forall c :: c in ModelByIdQuery ==> !IsDigit(c)
    ensures forall c :: c in AllModelsQuery ==> !IsDigit(c)
  {
  }

  /** No rendering of any id occurs anywhere in either query text: neither
      text holds a digit, and every rendering does. */
  lemma IdNeverInText(modelId: Option<int>, i: int, k: nat)
    requires k + |IntToString(i)| <= |FetchModelQuery(modelId).text|
    ensures FetchModelQuery(modelId).text[k..k + |IntToString(i)|] != IntToString(i)
  {
    var text := FetchModelQuery(modelId).text;
    var r := IntToString(i);
    IntToStringCharacters(i);
    TextsHoldNoDigit();
    assert text[k + |r| - 1] in text;
    assert text[k..k + |r|][|r| - 1] == text[k + |r| - 1];
  }
}
