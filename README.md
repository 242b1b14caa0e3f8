# Penguin API: query texts, artifact paths and the feature frame

A Dafny model of the logic in `app/main.py` of a small FastAPI service that
serves penguin records from SQLite and predictions from models serialised
with joblib. The parts modelled are the ones that compute something rather than
call a library:

- **`fetch_penguins`**: how the `SELECT * FROM PENGUINS` text is built from
  three optional filters (`island_id`, `status_id`, `species`). Module
  `PenguinQuery`, file `penguin_query.dfy`. `BuildQuery` is the imperative
  builder: a `conditions` list that grows under three checks, a join with
  `" AND "`, and a `" WHERE "` clause added only when the joined text is
  non-empty. It is proved equal to the specification function `QueryText`.
  `ParseQuery` reads a text back into its filters. The round trip is proved in
  both directions, so the text determines the filters and the parser accepts
  nothing else.
- **The species filter is not escaped.** The value goes between single quotes
  exactly as the caller gave it. `SpeciesQuotesUnescaped` proves that every
  quote in the value reaches the query text. `SpeciesInjectionText` shows a
  value that turns the condition into a disjunction. The model does not claim
  any protection against SQL injection, because the code gives none. The text
  is still unambiguous as a string (`ParseRoundTrip`). That holds because the
  species condition always comes last and its closing quote is the last
  character. SQL, however, ends the string literal at the first quote that is
  not doubled.
- **`fetch_model`**: picks one of two constant texts. With an id, it binds
  that id as the single `?` parameter. Module `ModelTable`.
- **`load_model` / `predict`**: the artifact path
  `models/model_v<id>.joblib`, the 404 error for a missing file, and the
  one-row frame with four columns in a fixed order. Module `Prediction`.
- Integers are written into texts by Python's `str`, modelled in `Decimal`
  as `IntToString`. Its inverse `ParseInt` accepts only canonical decimal
  text. The measurements are opaque values of a type parameter `F`. The
  loaded model is a type parameter `M`. Inference is a function parameter
  `infer`. The file system is a map from path to loaded model.

The code uses the model id directly in the file name (`app/main.py:120`).
There is no offset and no table from external id to version. The model
follows the code, and `ModelPathRoundTrip` states that the id itself, in
decimal, is what the path holds. The penguin query also interpolates every
filter value into the text instead of binding parameters. The model follows
that too.

## Model

| member | source | states |
|---|---|---|
| `PenguinQuery.BuildQuery` | app/main.py:20-34 | The text built step by step is exactly the text the filters specify, `QueryText`. Testing the joined text for emptiness, as the source does, agrees with testing for "no filter given". |
| `PenguinQuery.Conditions` | app/main.py:22-29 | There is one condition per filter given, and every condition is non-empty. |
| `PenguinQuery.ConditionsInOrder` | app/main.py:22-29 | The island condition comes first, then status, then species. Each is rendered as `island_id = <n>`, `status_id = <n>` or `species = '<value>'`. |
| `PenguinQuery.JoinEmptyIff` | app/main.py:31-33 | Non-empty parts join to the empty text exactly when there are no parts. |
| `PenguinQuery.QueryShape` | app/main.py:31-34 | Every text starts with `SELECT * FROM PENGUINS`. It is exactly that text if and only if no filter is given. Otherwise it is that text, `" WHERE "`, and the conditions joined by `" AND "`. |
| `PenguinQuery.ParseRoundTrip` | app/main.py:22-34 | Parsing the built text gives back the filters that built it. So each filter given appears once, in its place, and no absent filter appears. |
| `PenguinQuery.ParseQueryExact` | app/main.py:22-34 | Any text the parser accepts as filters `f` is exactly `QueryText(f)`. |
| `PenguinQuery.QueryTextInjective` | app/main.py:22-34 | Different filters give different texts. |
| `PenguinQuery.SpeciesQuotesUnescaped` | app/main.py:28-29 | The text holds the two delimiting quotes plus every quote in the species value, and no quote at all when species is absent. The value is not escaped. |
| `PenguinQuery.SpeciesInjectionText` | app/main.py:29-34 | The species value `x' OR '1'='1` gives the text `SELECT * FROM PENGUINS WHERE species = 'x' OR '1'='1'`. |
| `PenguinQuery.ParseNumberOfRendering` | app/main.py:25-27 | An integer written into a condition can be read back, up to the following space or the end of the text. |
| `Decimal.IntToStringRoundTrip` | app/main.py:25-27 | Parsing the decimal rendering of an integer, with its minus sign, gives back the integer. |
| `Decimal.ParseIntOnlyRenderings` | app/main.py:25-27 | The decimal parser accepts only canonical renderings: no leading zeros and no `-0`. |
| `Decimal.IntToStringInjective` | app/main.py:120 | Different integers have different renderings. |
| `Decimal.IntToStringCharacters` | app/main.py:25-27 | A rendering is non-empty, holds only digits and `-`, and ends in a digit. |
| `Decimal.NatToStringCanonical` | app/main.py:25-27 | The rendering of a natural number is canonical and denotes that number. |
| `Decimal.CanonicalIsRendering` | app/main.py:25-27 | A canonical digit string is the rendering of its value. |
| `ModelTable.BoundIdRoundTrip` | app/main.py:59-65 | The bound parameters carry exactly the requested id: none when absent, that one id when given. Their number equals the number of `?` placeholders in the text. |
| `ModelTable.TextIndependentOfId` | app/main.py:59-65 | Any two ids give the same text. The text with an id differs from the text without. |
| `ModelTable.IdNeverInText` | app/main.py:60-62 | No rendering of any integer occurs at any position of either text. |
| `Prediction.ModelPathRoundTrip` | app/main.py:120 | The id can be read back from its artifact path, unchanged, with no offset. |
| `Prediction.ParseModelPathExact` | app/main.py:120 | Only paths of the form `models/model_v<decimal>.joblib` are read as artifact paths. |
| `Prediction.ModelPathInjective` | app/main.py:120 | Different ids name different files. |
| `Prediction.LoadModel` | app/main.py:119-125 | Loading succeeds exactly when the id's file exists, and yields that file's model. Otherwise the result is status 404 with a message naming the id. |
| `Prediction.NotFoundDetailNamesId` | app/main.py:125 | The id can be read back from the not-found message. |
| `Prediction.FeatureRowLayout` | app/main.py:131-136 | The frame has four columns in the order `bill_length_mm`, `bill_depth_mm`, `flipper_length_mm`, `body_mass_g`. Position k holds the request field that column k names. |
| `Prediction.FeatureRowByName` | app/main.py:131-136 | For every name, reading the frame by column name gives the same result as reading the request by field name. |
| `Prediction.FeatureRowDeterminesMeasurements` | app/main.py:131-136 | Two requests give the same frame only when all four measurements agree. So any swap of two unequal measurements changes the frame. |
| `Prediction.FeatureRowOrderSensitive` | app/main.py:131-136 | Swapping the bill length and bill depth, when they differ, changes the frame. |
| `Prediction.Predict` | app/main.py:128-139 | A prediction is the model's inference on the frame if the id's file exists. Otherwise it is the 404 error naming the id. |

## Left out

- Database access is not modelled: `sqlite3.connect`, `pd.read_sql_query`, `to_dict(orient="records")` and `conn.close()`. Only the query texts and parameters are modelled, not the rows they return. These are I/O and library calls.
- `fetch_status` is not modelled. Its query is a single constant text with no input.
- The FastAPI endpoint wrappers and their error wrapping are not modelled. They are routing. As written, the `/penguins/` endpoint reuses the name `fetch_penguins` and so calls itself. `HTTPException` and `query` are never imported. The model gives the evident intent of `load_model`, a 404 error, and not the `NameError` the missing import would raise.
- Consequence of those defects: importing the module fails on the unimported `query` at line 76, and the `/penguins/` endpoint never reaches the builder. So the modules here describe the helper functions `fetch_penguins`, `fetch_model`, `load_model` and the body of `predict`, not a running endpoint.
- Decimal.IntToString: renders every integer. Python 3.11+ (and the 3.7-3.10 security releases) raises `ValueError` when `str()` or an f-string converts an integer of more than 4300 digits. `PenguinQuery.QueryText`, `Prediction.ModelPath`, `Prediction.LoadModel` and `Prediction.Predict` therefore return a text, a path or a 404 for such ids, where the source raises at lines 25, 27 or 120. Only integers under that limit behave as modelled.
- `Prediction.LoadModel` maps only a missing file to an error. Other failures of `joblib.load` are not modelled: a file that exists but is corrupt, or one that cannot be read. The source lets those propagate.
- `model.predict` and the floating-point measurements are opaque: the type parameters `M` and `F` and the function `infer`. Only the order and naming of the values are modelled.
- `print(e)` in `fetch_model` is not modelled. It is logging.
- FastAPI's conversion of query strings to `int` or `str` is not modelled. The model starts from already-typed optional values.
