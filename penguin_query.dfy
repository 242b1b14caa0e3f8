/** The text of the read query of the `fetch_penguins` helper: one equality condition
    per filter the caller supplied, joined with " AND " and appended to
    `SELECT * FROM PENGUINS` after " WHERE " when there is at least one.
    Integer filters are rendered in decimal; the species value is spliced
    between single quotes exactly as given, with no escaping. */
module PenguinQuery {
  import opened Wrappers
  import opened Text
  import opened Decimal

  /** The three optional filters of the penguin query, in the order the
      conditions are emitted. */
  datatype Filters = Filters(islandId: Option<int>, statusId: Option<int>, species: Option<string>)

  const BaseQuery := "SELECT * FROM PENGUINS"
  const WhereKeyword := " WHERE "
  const AndSeparator := " AND "
  const IslandPrefix := "island_id = "
  const StatusPrefix := "status_id = "
  const SpeciesPrefix := "species = '"
  const SpeciesSuffix := "'"

  function PresentCount(f: Filters): nat {
    (if f.islandId.Some? then 1 else 0) + (if f.statusId.Some? then 1 else 0) + (if f.species.Some? then 1 else 0)
  }

  /** Python's `sep.join(parts)`. */
  function Join(parts: seq<string>, sep: string): string
  {
    if |parts| == 0 then ""
    else if |parts| == 1 then parts[0]
    else parts[0] + sep + Join(parts[1..], sep)
  }

  function IslandCondition(islandId: int): string {
    IslandPrefix + IntToString(islandId)
  }

  function StatusCondition(statusId: int): string {
    StatusPrefix + IntToString(statusId)
  }

  function SpeciesCondition(species: string): string {
    SpeciesPrefix + species + SpeciesSuffix
  }

  /** The list `conditions` holds once the three checks have run. */
  function Conditions(f: Filters): (conds: seq<string>)
    ensures |conds| == PresentCount(f)
    ensures forall k :: 0 <= k < |conds| ==> conds[k] != ""
  {
    (if f.islandId.Some? then [IslandCondition(f.islandId.value)] else [])
    + (if f.statusId.Some? then [StatusCondition(f.statusId.value)] else [])
    + (if f.species.Some? then [SpeciesCondition(f.species.value)] else [])
  }

  /** The query text the filters produce. */
  function QueryText(f: Filters): string
  {
    if Conditions(f) == [] then BaseQuery else BaseQuery + WhereKeyword + Join(Conditions(f), AndSeparator)
  }

  /** The query builder as the source writes it: an empty list of conditions
      grows under three independent checks, is joined, and the WHERE clause is
      added only when the joined text is non-empty. */
  method BuildQuery(islandId: Option<int>, statusId: Option<int>, species: Option<string>) returns (query: string)
    ensures query == QueryText(Filters(islandId, statusId, species))
  {
    ghost var f := Filters(islandId, statusId, species);
    var conditions: seq<string> := [];
    if islandId.Some? {
      conditions := conditions + [IslandCondition(islandId.value)];
    }
    if statusId.Some? {
      conditions := conditions + [StatusCondition(statusId.value)];
    }
    if species.Some? {
      conditions := conditions + [SpeciesCondition(species.value)];
    }
    assert conditions == Conditions(f);
    var queryConditions := Join(conditions, AndSeparator);
    JoinEmptyIff(conditions, AndSeparator);
    query := BaseQuery;
    if queryConditions != "" {
      query := query + WhereKeyword + queryConditions;
    }
  }

  /** Joining non-empty parts gives the empty text exactly when there are no
      parts: this is why testing the joined text, as the source does, and
      testing the list agree. */
  lemma {:induction false} JoinEmptyIff(parts: seq<string>, sep: string)
    requires forall k :: 0 <= k < |parts| ==> parts[k] != ""
    ensures (Join(parts, sep) == "") <==> (parts == [])
  {
    if |parts| > 1 {
      assert |parts[0] + sep + Join(parts[1..], sep)| >= |parts[0]| > 0;
    }
  }

  lemma JoinPrepend(head: string, rest: seq<string>, sep: string)
    ensures Join([head] + rest, sep) == if rest == [] then head else head + sep + Join(rest, sep)
  {
    assert ([head] + rest)[1..] == rest;
  }

  /** With no filter the query is the bare table scan; with any filter it is
      the scan, " WHERE ", and the conditions joined by " AND ". Either way the
      text starts with the fixed `SELECT * FROM PENGUINS`. */
  lemma QueryShape(f: Filters)
    ensures StartsWith(QueryText(f), BaseQuery)
    ensures PresentCount(f) == 0 <==> QueryText(f) == BaseQuery
    ensures PresentCount(f) > 0 ==> QueryText(f) == BaseQuery + WhereKeyword + Join(Conditions(f), AndSeparator)
  {
    if PresentCount(f) > 0 {
      assert |QueryText(f)| > |BaseQuery|;
    }
    StartsWithConcat(BaseQuery, QueryText(f)[|BaseQuery|..]);
    assert QueryText(f) == BaseQuery + QueryText(f)[|BaseQuery|..];
  }

  /** Each supplied filter contributes one condition and an absent one none;
      the island condition comes first, then status, then species. */
  lemma ConditionsInOrder(f: Filters)
    ensures f.islandId.Some? ==> Conditions(f)[0] == IslandCondition(f.islandId.value)
    ensures f.statusId.Some? ==>
      Conditions(f)[if f.islandId.Some? then 1 else 0] == StatusCondition(f.statusId.value)
    ensures f.species.Some? ==>
      Conditions(f)[|Conditions(f)| - 1] == SpeciesCondition(f.species.value)
  {
  }

  /** The species value lands in the text unescaped: the text has exactly the
      two delimiting quotes plus every quote of the caller's value, so a value
      holding a quote that is not doubled ends the SQL string literal early. */
  lemma SpeciesQuotesUnescaped(f: Filters)
    ensures Occurrences(QueryText(f), '\'') ==
      if f.species.Some? then 2 + Occurrences(f.species.value, '\'') else 0
  {
    QueryShape(f);
    if PresentCount(f) == 0 {
      OccurrencesAbsent(BaseQuery, '\'');
    } else {
      var joined := Join(Conditions(f), AndSeparator);
      WherePrefixQuotes(joined);
      JoinQuotes(Conditions(f));
      ConditionQuotes(f);
    }
  }

  lemma WherePrefixQuotes(joined: string)
    ensures Occurrences(BaseQuery + WhereKeyword + joined, '\'') == Occurrences(joined, '\'')
  {
    QuoteFreePrefix(BaseQuery + WhereKeyword, joined);
  }

  lemma QuoteFreePrefix(prefix: string, rest: string)
    requires '\'' !in prefix
    ensures Occurrences(prefix + rest, '\'') == Occurrences(rest, '\'')
  {
    OccurrencesAbsent(prefix, '\'');
    OccurrencesConcat(prefix, rest, '\'');
  }

  /** Quotes summed over a list of conditions. */
  function PartQuotes(parts: seq<string>): nat {
    if parts == [] then 0 else Occurrences(parts[0], '\'') + PartQuotes(parts[1..])
  }

  lemma ConditionQuotes(f: Filters)
    ensures PartQuotes(Conditions(f)) == if f.species.Some? then 2 + Occurrences(f.species.value, '\'') else 0
  {
    var isl := if f.islandId.Some? then [IslandCondition(f.islandId.value)] else [];
    var st := if f.statusId.Some? then [StatusCondition(f.statusId.value)] else [];
    var sp := if f.species.Some? then [SpeciesCondition(f.species.value)] else [];
    assert Conditions(f) == isl + st + sp;
    QuotesOfParts(isl, st, sp);
    if f.islandId.Some? {
      QuotesOfRendering(IslandPrefix, f.islandId.value);
      assert isl[1..] == [];
    }
    if f.statusId.Some? {
      QuotesOfRendering(StatusPrefix, f.statusId.value);
      assert st[1..] == [];
    }
    if f.species.Some? {
      SpeciesConditionQuotes(f.species.value);
      assert sp[1..] == [];
    }
  }

  lemma SpeciesConditionQuotes(s: string)
    ensures Occurrences(SpeciesCondition(s), '\'') == 2 + Occurrences(s, '\'')
  {
    assert SpeciesPrefix == "species = " + SpeciesSuffix;
    OccurrencesAbsent("species = ", '\'');
    OccurrencesConcat("species = ", SpeciesSuffix, '\'');
    OccurrencesConcat(SpeciesPrefix, s, '\'');
    OccurrencesConcat(SpeciesPrefix + s, SpeciesSuffix, '\'');
  }

  lemma {:induction false} QuotesOfParts(a: seq<string>, b: seq<string>, c: seq<string>)
    ensures PartQuotes(a + b + c) == PartQuotes(a) + PartQuotes(b) + PartQuotes(c)
    decreases |a| + |b| + |c|
  {
    if a != [] {
      assert (a + b + c)[1..] == a[1..] + b + c;
      QuotesOfParts(a[1..], b, c);
    } else if b != [] {
      assert (a + b + c)[1..] == [] + b[1..] + c;
      QuotesOfParts([], b[1..], c);
    } else {
      assert a + b + c == c;
    }
  }

  lemma QuotesOfRendering(prefix: string, i: int)
    requires '\'' !in prefix
    ensures Occurrences(prefix + IntToString(i), '\'') == 0
  {
    IntToStringCharacters(i);
    OccurrencesAbsent(prefix + IntToString(i), '\'');
  }

  /** The separators bring no quotes: the joined text has the quotes of its
      parts and no more. */
  lemma {:induction false} JoinQuotes(parts: seq<string>)
    ensures Occurrences(Join(parts, AndSeparator), '\'') == PartQuotes(parts)
  {
    if |parts| == 1 {
      assert parts[1..] == [];
    } else if |parts| > 1 {
      JoinQuotes(parts[1..]);
      OccurrencesAbsent(AndSeparator, '\'');
      OccurrencesConcat(parts[0], AndSeparator, '\'');
      OccurrencesConcat(parts[0] + AndSeparator, Join(parts[1..], AndSeparator), '\'');
    }
  }

  // Reading a query text back into the filters that produced it.

  predicate IsNumberChar(c: char) {
    IsDigit(c) || c == '-'
  }

  /** Length of the longest prefix of `s` made of digits and minus signs. */
  function NumberLength(s: string): (n: nat)
    ensures n <= |s|
  {
    if s == [] || !IsNumberChar(s[0]) then 0 else 1 + NumberLength(s[1..])
  }

  /** A decimal integer at the head of `s`, and the text after it. */
  function ParseNumber(s: string): Option<(int, string)>
  {
    var n := NumberLength(s);
    match ParseInt(s[..n])
    case None => None
    case Some(i) => Some((i, s[n..]))
  }

  /** The filters a query text was built from, or None for a text the
      builder never produces. */
  function ParseQuery(q: string): Option<Filters>
  {
    if q == BaseQuery then Some(Filters(None, None, None))
    else if StartsWith(q, BaseQuery + WhereKeyword) then ParseIsland(q[|BaseQuery + WhereKeyword|..])
    else None
  }

  function ParseIsland(t: string): Option<Filters>
  {
    if StartsWith(t, IslandPrefix) then
      match ParseNumber(t[|IslandPrefix|..])
      case None => None
      case Some((i, rest)) =>
        if rest == "" then Some(Filters(Some(i), None, None))
        else if StartsWith(rest, AndSeparator) then
          match ParseStatus(rest[|AndSeparator|..])
          case None => None
          case Some(g) => Some(g.(islandId := Some(i)))
        else None
    else ParseStatus(t)
  }

  function ParseStatus(t: string): Option<Filters>
  {
    if StartsWith(t, StatusPrefix) then
      match ParseNumber(t[|StatusPrefix|..])
      case None => None
      case Some((i, rest)) =>
        if rest == "" then Some(Filters(None, Some(i), None))
        else if StartsWith(rest, AndSeparator) then
          match ParseSpecies(rest[|AndSeparator|..])
          case None => None
          case Some(g) => Some(g.(statusId := Some(i)))
        else None
    else ParseSpecies(t)
  }

  function ParseSpecies(t: string): Option<Filters>
  {
    match Between(t, SpeciesPrefix, SpeciesSuffix)
    case None => None
    case Some(v) => Some(Filters(None, None, Some(v)))
  }

  lemma {:induction false} NumberLengthOf(digits: string, rest: string)
    requires forall k :: 0 <= k < |digits| ==> IsNumberChar(digits[k])
    requires rest == [] || !IsNumberChar(rest[0])
    ensures NumberLength(digits + rest) == |digits|
    decreases |digits|
  {
    if digits == [] {
      assert digits + rest == rest;
    } else {
      assert (digits + rest)[1..] == digits[1..] + rest;
      NumberLengthOf(digits[1..], rest);
    }
  }

  /** A rendered integer followed by the end of the text or a space reads back
      as that integer. */
  lemma ParseNumberOfRendering(i: int, rest: string)
    requires rest == [] || rest[0] == ' '
    ensures ParseNumber(IntToString(i) + rest) == Some((i, rest))
  {
    IntToStringCharacters(i);
    NumberLengthOf(IntToString(i), rest);
    var s := IntToString(i) + rest;
    assert s[..|IntToString(i)|] == IntToString(i);
    assert s[|IntToString(i)|..] == rest;
    IntToStringRoundTrip(i);
  }

  lemma SpeciesStage(species: string)
    ensures ParseSpecies(SpeciesCondition(species)) == Some(Filters(None, None, Some(species)))
  {
    BetweenOfConcat(SpeciesPrefix, species, SpeciesSuffix);
  }

  /** The status step reads back a text holding a status and/or a species
      condition. */
  lemma StatusStage(g: Filters)
    requires g.islandId.None? && PresentCount(g) > 0
    ensures ParseStatus(Join(Conditions(g), AndSeparator)) == Some(g)
  {
    var t := Join(Conditions(g), AndSeparator);
    if g.statusId.None? {
      var sp := SpeciesCondition(g.species.value);
      assert Conditions(g) == [sp];
      assert t == sp;
      assert t[1] == 'p';
      SpeciesStage(g.species.value);
    } else {
      var j := g.statusId.value;
      var tail := if g.species.Some? then AndSeparator + SpeciesCondition(g.species.value) else "";
      if g.species.Some? {
        JoinPrepend(StatusCondition(j), [SpeciesCondition(g.species.value)], AndSeparator);
        assert Conditions(g) == [StatusCondition(j)] + [SpeciesCondition(g.species.value)];
      } else {
        assert Conditions(g) == [StatusCondition(j)];
      }
      assert t == StatusPrefix + (IntToString(j) + tail);
      StartsWithConcat(StatusPrefix, IntToString(j) + tail);
      ParseNumberOfRendering(j, tail);
      if g.species.Some? {
        StartsWithConcat(AndSeparator, SpeciesCondition(g.species.value));
        SpeciesStage(g.species.value);
      }
    }
  }

  lemma IslandStage(f: Filters)
    requires PresentCount(f) > 0
    ensures ParseIsland(Join(Conditions(f), AndSeparator)) == Some(f)
  {
    if f.islandId.None? {
      IslandAbsentStage(f);
    } else {
      IslandPresentStage(f);
    }
  }

  lemma JoinHead(parts: seq<string>, sep: string)
    requires |parts| > 0 && |parts[0]| > 0
    ensures |Join(parts, sep)| > 0 && Join(parts, sep)[0] == parts[0][0]
  {
  }

  lemma IslandAbsentStage(f: Filters)
    requires PresentCount(f) > 0 && f.islandId.None?
    ensures ParseIsland(Join(Conditions(f), AndSeparator)) == Some(f)
  {
    var t := Join(Conditions(f), AndSeparator);
    JoinHead(Conditions(f), AndSeparator);
    assert Conditions(f)[0][0] == 's';
    assert t[0] != IslandPrefix[0];
    StatusStage(f);
  }

  /** What follows the first condition: nothing, or " AND " and the rest. */
  function Tail(g: Filters): string
  {
    if Conditions(g) == [] then "" else AndSeparator + Join(Conditions(g), AndSeparator)
  }

  lemma IslandPresentStage(f: Filters)
    requires f.islandId.Some?
    ensures ParseIsland(Join(Conditions(f), AndSeparator)) == Some(f)
  {
    var g := f.(islandId := None);
    IslandJoin(f.islandId.value, g);
    IslandParse(f.islandId.value, g);
    assert g.(islandId := f.islandId) == f;
  }

  lemma IslandJoin(i: int, g: Filters)
    requires g.islandId.None?
    ensures Join(Conditions(g.(islandId := Some(i))), AndSeparator) == IslandPrefix + (IntToString(i) + Tail(g))
  {
    var cg := Conditions(g);
    assert Conditions(g.(islandId := Some(i))) == [IslandCondition(i)] + cg;
    JoinPrepend(IslandCondition(i), cg, AndSeparator);
  }

  lemma IslandParse(i: int, g: Filters)
    requires g.islandId.None?
    ensures ParseIsland(IslandPrefix + (IntToString(i) + Tail(g))) == Some(g.(islandId := Some(i)))
  {
    var rest := IntToString(i) + Tail(g);
    StartsWithConcat(IslandPrefix, rest);
    ParseNumberOfRendering(i, Tail(g));
    if Conditions(g) != [] {
      StartsWithConcat(AndSeparator, Join(Conditions(g), AndSeparator));
      StatusStage(g);
    }
  }

  /** The query text determines the filters: parsing it gives them back. So
      as a text the query is unambiguous, whatever the species value holds. */
  lemma ParseRoundTrip(f: Filters)
    ensures ParseQuery(QueryText(f)) == Some(f)
  {
    QueryShape(f);
    if PresentCount(f) > 0 {
      var joined := Join(Conditions(f), AndSeparator);
      StartsWithConcat(BaseQuery + WhereKeyword, joined);
      assert QueryText(f) == (BaseQuery + WhereKeyword) + joined;
      IslandStage(f);
    }
  }

  lemma ParseNumberExact(s: string, i: int, rest: string)
    requires ParseNumber(s) == Some((i, rest))
    ensures s == IntToString(i) + rest
  {
    var n := NumberLength(s);
    ParseIntOnlyRenderings(s[..n], i);
    assert s == s[..n] + s[n..];
  }

  lemma ParseSpeciesExact(t: string, g: Filters)
    requires ParseSpecies(t) == Some(g)
    ensures g.islandId.None? && g.statusId.None? && g.species.Some?
    ensures Join(Conditions(g), AndSeparator) == t
  {
    assert Conditions(g) == [SpeciesCondition(g.species.value)];
  }

  lemma ParseStatusExact(t: string, g: Filters)
    requires ParseStatus(t) == Some(g)
    ensures g.islandId.None? && PresentCount(g) > 0
    ensures Join(Conditions(g), AndSeparator) == t
  {
    if StartsWith(t, StatusPrefix) {
      var (i, rest) := ParseNumber(t[|StatusPrefix|..]).value;
      ParseNumberExact(t[|StatusPrefix|..], i, rest);
      assert t == StatusPrefix + t[|StatusPrefix|..];
      if rest == "" {
        assert g == Filters(None, Some(i), None);
        assert Conditions(g) == [StatusCondition(i)];
      } else {
        assert StartsWith(rest, AndSeparator);
        var h := ParseSpecies(rest[|AndSeparator|..]).value;
        assert g == h.(statusId := Some(i));
        StatusThenSpecies(t, i, rest, h);
      }
    } else {
      ParseSpeciesExact(t, g);
    }
  }

  lemma StatusThenSpecies(t: string, i: int, rest: string, h: Filters)
    requires t == StatusPrefix + IntToString(i) + rest
    requires StartsWith(rest, AndSeparator)
    requires ParseSpecies(rest[|AndSeparator|..]) == Some(h)
    ensures h.(statusId := Some(i)).islandId.None? && PresentCount(h.(statusId := Some(i))) > 0
    ensures Join(Conditions(h.(statusId := Some(i))), AndSeparator) == t
  {
    var g := h.(statusId := Some(i));
    var after := rest[|AndSeparator|..];
    ParseSpeciesExact(after, h);
    var sp := SpeciesCondition(h.species.value);
    assert Conditions(h) == [sp];
    assert Conditions(g) == [StatusCondition(i)] + [sp];
    JoinPrepend(StatusCondition(i), [sp], AndSeparator);
    assert Join(Conditions(g), AndSeparator) == StatusCondition(i) + AndSeparator + after;
    assert rest == AndSeparator + after;
    ConcatAssoc(StatusPrefix, IntToString(i), AndSeparator, after);
  }

  lemma ParseIslandExact(t: string, f: Filters)
    requires ParseIsland(t) == Some(f)
    ensures PresentCount(f) > 0
    ensures Join(Conditions(f), AndSeparator) == t
  {
    if StartsWith(t, IslandPrefix) {
      var (i, rest) := ParseNumber(t[|IslandPrefix|..]).value;
      ParseNumberExact(t[|IslandPrefix|..], i, rest);
      assert t == IslandPrefix + t[|IslandPrefix|..];
      if rest == "" {
        assert f == Filters(Some(i), None, None);
        assert Conditions(f) == [IslandCondition(i)];
      } else {
        assert StartsWith(rest, AndSeparator);
        var g := ParseStatus(rest[|AndSeparator|..]).value;
        assert f == g.(islandId := Some(i));
        IslandThenRest(t, i, rest, g);
      }
    } else {
      ParseStatusExact(t, f);
    }
  }

  lemma IslandThenRest(t: string, i: int, rest: string, g: Filters)
    requires t == IslandPrefix + IntToString(i) + rest
    requires StartsWith(rest, AndSeparator)
    requires ParseStatus(rest[|AndSeparator|..]) == Some(g)
    ensures PresentCount(g.(islandId := Some(i))) > 0
    ensures Join(Conditions(g.(islandId := Some(i))), AndSeparator) == t
  {
    var f := g.(islandId := Some(i));
    var after := rest[|AndSeparator|..];
    ParseStatusExact(after, g);
    var cg := Conditions(g);
    assert Conditions(f) == [IslandCondition(i)] + cg;
    assert cg != [];
    JoinPrepend(IslandCondition(i), cg, AndSeparator);
    assert Join(Conditions(f), AndSeparator) == IslandCondition(i) + AndSeparator + after;
    assert rest == AndSeparator + after;
    ConcatAssoc(IslandPrefix, IntToString(i), AndSeparator, after);
  }

  lemma ConcatAssoc(a: string, b: string, c: string, d: string)
    ensures a + b + (c + d) == (a + b) + c + d
  {
  }

  /** The parser accepts only texts the builder produces: whatever it reads
      as filters `f` is exactly QueryText(f). */
  lemma ParseQueryExact(q: string, f: Filters)
    requires ParseQuery(q) == Some(f)
    ensures QueryText(f) == q
  {
    if q != BaseQuery {
      var t := q[|BaseQuery + WhereKeyword|..];
      ParseIslandExact(t, f);
      QueryShape(f);
      assert q == (BaseQuery + WhereKeyword) + t;
    }
  }

  lemma QueryTextInjective(f: Filters, g: Filters)
    requires QueryText(f) == QueryText(g)
    ensures f == g
  {
    ParseRoundTrip(f);
    ParseRoundTrip(g);
  }

  /** A concrete value that turns the species test into a disjunction in the
      query text. */
  lemma SpeciesInjectionText()
    ensures QueryText(Filters(None, None, Some("x' OR '1'='1")))
      == "SELECT * FROM PENGUINS WHERE species = 'x' OR '1'='1'"
  {
    var f := Filters(None, None, Some("x' OR '1'='1"));
    assert Conditions(f) == [SpeciesCondition("x' OR '1'='1")];
    assert QueryText(f) == BaseQuery + WhereKeyword + SpeciesCondition("x' OR '1'='1");
  }
}
