/** The three `pre=True` validators of the application settings: they see
    the raw value before pydantic coerces it to the field's type, and
    normalise it. */
module Config {
  import opened Wrappers
  import opened Text

  /** A raw setting value as a validator receives it: a string (what the
      environment supplies), a list of strings, `None`, or a value of any
      other type. */
  datatype Raw = Str(s: string) | List(items: seq<string>) | Null | Other

  /** What `assemble_cors_origins` hands on: a list of origins, or a string
      left for pydantic to parse as a JSON list. */
  datatype CorsOrigins = OriginList(origins: seq<string>) | JsonText(text: string)

  /** `raise ValueError(v)`. */
  datatype ValidationError = ValueError(value: Raw)

  /** `v.startswith("[")`. */
  predicate StartsWithBracket(s: string) {
    |s| > 0 && s[0] == '['
  }

  /** `assemble_cors_origins`: a string that is not a JSON list is split on
      every comma and each piece stripped of surrounding whitespace; a JSON
      list string or a list passes through; anything else is refused. */
  function AssembleCorsOrigins(v: Raw): (r: Result<CorsOrigins, ValidationError>)
    ensures r.Failure? <==> v.Null? || v.Other?
    ensures r.Failure? ==> r.error == ValueError(v)
    ensures v.List? ==> r == Success(OriginList(v.items))
    ensures v.Str? && StartsWithBracket(v.s) ==> r == Success(JsonText(v.s))
    ensures v.Str? && !StartsWithBracket(v.s) ==>
      && r.Success? && r.value.OriginList?
      && |r.value.origins| == Occurrences(v.s, ',') + 1
      && forall i :: 0 <= i < |r.value.origins| ==> r.value.origins[i] == Strip(SplitOnComma(v.s)[i])
  {
    match v
    case Str(s) =>
      if !StartsWithBracket(s) then
        Success(OriginList(StripEach(SplitOnComma(s))))
      else Success(JsonText(s))
    case List(items) => Success(OriginList(items))
    case _ => Failure(ValueError(v))
  }

  /** `[item.strip() for item in pieces]`. */
  function StripEach(pieces: seq<string>): seq<string> {
    seq(|pieces|, i requires 0 <= i < |pieces| => Strip(pieces[i]))
  }

  /** An origin as the comma-separated form yields it: no comma inside and
      no whitespace at either end. */
  predicate CleanOrigin(o: string) {
    && ',' !in o
    && (|o| == 0 || (!IsSpace(o[0]) && !IsSpace(o[|o| - 1])))
  }

  /** Every origin split out of a comma-separated string is clean. */
  lemma SplitOriginsAreClean(s: string)
    requires !StartsWithBracket(s)
    ensures AssembleCorsOrigins(Str(s)).value.OriginList?
    ensures forall o :: o in AssembleCorsOrigins(Str(s)).value.origins ==> CleanOrigin(o)
  {
    var origins := AssembleCorsOrigins(Str(s)).value.origins;
    var pieces := SplitOnComma(s);
    forall i | 0 <= i < |origins| ensures CleanOrigin(origins[i]) {
      StripKeepsCommaFree(pieces[i]);
    }
  }

  /** Stripping pieces that are already clean changes none of them. */
  lemma StripEachClean(pieces: seq<string>)
    requires forall i :: 0 <= i < |pieces| ==> CleanOrigin(pieces[i])
    ensures StripEach(pieces) == pieces
  {
    forall i | 0 <= i < |pieces| ensures StripEach(pieces)[i] == pieces[i] {
      StripUntrimmed(pieces[i]);
    }
  }

  /** Writing clean origins out comma-separated (with no leading `[`) and
      validating the string gives the same origins back. */
  lemma CorsOriginsRoundTrip(origins: seq<string>)
    requires |origins| > 0
    requires forall i :: 0 <= i < |origins| ==> CleanOrigin(origins[i])
    requires !StartsWithBracket(JoinWithComma(origins))
    ensures AssembleCorsOrigins(Str(JoinWithComma(origins))) == Success(OriginList(origins))
  {
    SplitJoin(origins);
    StripEachClean(origins);
  }

  /** A comma-separated string whose pieces carry no whitespace at their
      ends comes back exactly when its validated origins are joined again. */
  lemma CorsOriginsRejoin(s: string)
    requires !StartsWithBracket(s)
    requires forall i :: 0 <= i < |SplitOnComma(s)| ==> CleanOrigin(SplitOnComma(s)[i])
    ensures JoinWithComma(AssembleCorsOrigins(Str(s)).value.origins) == s
  {
    StripEachClean(SplitOnComma(s));
    JoinSplit(s);
  }

  /** The database URI used when none is configured. */
  const DefaultDatabaseUri: string := "sqlite:///./perseus.db.sqlite3"

  /** `assemble_db_connection`: a configured string is kept as it is;
      anything else, `None` included, becomes the local SQLite file. */
  function AssembleDbConnection(v: Raw): (uri: string)
    ensures v.Str? ==> uri == v.s
    ensures !v.Str? ==> uri == DefaultDatabaseUri
  {
    if v.Str? then v.s else DefaultDatabaseUri
  }

  /** Validating an already validated URI changes nothing. */
  lemma DbConnectionIdempotent(v: Raw)
    ensures AssembleDbConnection(Str(AssembleDbConnection(v))) == AssembleDbConnection(v)
  {
  }

  /** `sentry_dsn_can_be_blank`: an empty DSN means no Sentry reporting; any
      other DSN is kept as it is. */
  function SentryDsnCanBeBlank(v: string): (dsn: Option<string>)
    ensures dsn.None? <==> |v| == 0
    ensures dsn.Some? ==> dsn.value == v
  {
    if |v| == 0 then None else Some(v)
  }
}
