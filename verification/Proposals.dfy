/**
 The stored payload of a proposal (a JSON object read according to the proposal's
 kind) and the rule that merges it with what the moderator retyped.
 */
module Proposals {
  import opened Wrappers
  import opened Text

  datatype Json =
    | Null
    | Bool(flag: bool)
    | Number(number: real)
    | Str(text: string)
    | List(items: seq<Json>)
    | Object(fields: map<string, Json>)

  datatype ProposalKind = MoveKind | ExistenceKind

  datatype ProposedChange =
    | MoveLocation(lat: real, lon: real, timezone: Option<string>)
    | ChangeExistence(present: bool)
    | Unknown

  datatype Payload = Payload(change: ProposedChange, reason: Option<string>)

  // ---------------------------------------------------------------------------
  // The codec
  // ---------------------------------------------------------------------------

  function Get(j: Json, key: string): Option<Json> {
    if j.Object? && key in j.fields then Some(j.fields[key]) else None
  }

  function GetNumber(j: Json, key: string): Option<real> {
    match Get(j, key)
    case Some(Number(n)) => Some(n)
    case _ => None
  }

  function GetText(j: Json, key: string): Option<string> {
    match Get(j, key)
    case Some(Str(s)) => Some(s)
    case _ => None
  }

  function GetFlag(j: Json, key: string): Option<bool> {
    match Get(j, key)
    case Some(Bool(b)) => Some(b)
    case _ => None
  }

  /** Trim, and treat what is left empty as absent. */
  function NonBlank(s: Option<string>): Option<string> {
    if s.Some? && Trim(s.value) != "" then Some(Trim(s.value)) else None
  }

  predicate LatInRange(lat: real) {
    -90.0 <= lat <= 90.0
  }

  predicate LonInRange(lon: real) {
    -180.0 <= lon <= 180.0
  }

  function ChangeFromJson(kind: ProposalKind, raw: Json): ProposedChange {
    match kind
    case MoveKind =>
      var lat, lon := GetNumber(raw, "lat"), GetNumber(raw, "lon");
      if lat.Some? && lon.Some? && LatInRange(lat.value) && LonInRange(lon.value) then
        MoveLocation(lat.value, lon.value, NonBlank(GetText(raw, "timezone")))
      else
        Unknown
    case ExistenceKind =>
      match GetText(raw, "existence")
      case Some(code) =>
        if code == "exists" then ChangeExistence(true)
        else if code == "removed" then ChangeExistence(false)
        else Unknown
      case None =>
        match GetFlag(raw, "exists")
        case Some(present) => ChangeExistence(present)
        case None => Unknown
  }

  function ChangeFields(change: ProposedChange): map<string, Json> {
    match change
    case MoveLocation(lat, lon, Some(tz)) => map["lat" := Number(lat), "lon" := Number(lon), "timezone" := Str(tz)]
    case MoveLocation(lat, lon, None) => map["lat" := Number(lat), "lon" := Number(lon)]
    case ChangeExistence(present) => map["existence" := Str(if present then "exists" else "removed")]
    case Unknown => map[]
  }

  function FromJson(kind: ProposalKind, raw: Json): Payload {
    Payload(ChangeFromJson(kind, raw), NonBlank(GetText(raw, "reason")))
  }

  function ToJson(p: Payload): Json {
    Object(if p.reason.Some? then ChangeFields(p.change)["reason" := Str(p.reason.value)] else ChangeFields(p.change))
  }

  /** The payloads a stored object of this kind can stand for. */
  predicate Canonical(kind: ProposalKind, p: Payload) {
    && (p.reason.Some? ==> p.reason.value != "" && Trimmed(p.reason.value))
    && match p.change
       case MoveLocation(lat, lon, tz) =>
         kind.MoveKind? && LatInRange(lat) && LonInRange(lon) && (tz.Some? ==> tz.value != "" && Trimmed(tz.value))
       case ChangeExistence(_) => kind.ExistenceKind?
       case Unknown => true
  }

  lemma NonBlankIsCanonical(s: Option<string>)
    ensures NonBlank(s).Some? ==> NonBlank(s).value != "" && Trimmed(NonBlank(s).value)
    ensures NonBlank(s) == s <==> (s.Some? ==> s.value != "" && Trimmed(s.value))
  {
    if s.Some? {
      TrimIsTrimmed(s.value);
      if Trimmed(s.value) { TrimTrimmed(s.value); }
    }
  }

  lemma ParsedIsCanonical(kind: ProposalKind, raw: Json)
    ensures Canonical(kind, FromJson(kind, raw))
  {
    NonBlankIsCanonical(GetText(raw, "reason"));
    NonBlankIsCanonical(GetText(raw, "timezone"));
  }

  /** Rendering and parsing give a payload back exactly when it is canonical. */
  lemma RoundTripIffCanonical(kind: ProposalKind, p: Payload)
    ensures FromJson(kind, ToJson(p)) == p <==> Canonical(kind, p)
  {
    NonBlankIsCanonical(p.reason);
    if p.change.MoveLocation? {
      NonBlankIsCanonical(p.change.timezone);
    }
    var raw := ToJson(p);
    assert GetText(raw, "reason") == p.reason;
    if p.change.MoveLocation? {
      assert GetNumber(raw, "lat") == Some(p.change.lat) && GetNumber(raw, "lon") == Some(p.change.lon);
      assert GetText(raw, "timezone") == p.change.timezone;
    }
  }

  /** Whatever JSON is stored, parsing what was parsed and rendered changes nothing:
      not the change, not the reason, and not the fact that it is unreadable. */
  lemma ParseRenderParse(kind: ProposalKind, raw: Json)
    ensures FromJson(kind, ToJson(FromJson(kind, raw))) == FromJson(kind, raw)
  {
    ParsedIsCanonical(kind, raw);
    RoundTripIffCanonical(kind, FromJson(kind, raw));
  }

  /** How a payload is stored. */
  lemma StoredShape(lat: real, lon: real, tz: string, reason: string, present: bool)
    ensures ToJson(Payload(MoveLocation(lat, lon, Some(tz)), Some(reason))) ==
              Object(map["lat" := Number(lat), "lon" := Number(lon), "timezone" := Str(tz), "reason" := Str(reason)])
    ensures ToJson(Payload(MoveLocation(lat, lon, None), None)) == Object(map["lat" := Number(lat), "lon" := Number(lon)])
    ensures ToJson(Payload(ChangeExistence(present), None)) ==
              Object(map["existence" := Str(if present then "exists" else "removed")])
    ensures ToJson(Payload(Unknown, None)) == Object(map[])
  {
  }

  predicate HasNumber(raw: Json, key: string) {
    raw.Object? && key in raw.fields && raw.fields[key].Number?
  }

  /** A move is read from two numbers in range, and is unreadable without them. */
  lemma MoveIsRead(raw: Json)
    ensures
      var change := FromJson(MoveKind, raw).change;
      var readable := && HasNumber(raw, "lat") && HasNumber(raw, "lon")
                      && -90.0 <= raw.fields["lat"].number <= 90.0 && -180.0 <= raw.fields["lon"].number <= 180.0;
      if readable then
        && change.MoveLocation?
        && change.lat == raw.fields["lat"].number && change.lon == raw.fields["lon"].number
        && change.timezone ==
             (if "timezone" in raw.fields && raw.fields["timezone"].Str? && Trim(raw.fields["timezone"].text) != ""
              then Some(Trim(raw.fields["timezone"].text)) else None)
      else change == Unknown
  {
  }

  /** Existence is read from its text, or from a flag where there is no text; any other text
      is unreadable. */
  lemma ExistenceIsRead(raw: Json)
    requires raw.Object?
    ensures
      var change := FromJson(ExistenceKind, raw).change;
      if "existence" in raw.fields && raw.fields["existence"].Str? then
        change == (if raw.fields["existence"].text == "exists" then ChangeExistence(true)
                   else if raw.fields["existence"].text == "removed" then ChangeExistence(false)
                   else Unknown)
      else
        change == (if "exists" in raw.fields && raw.fields["exists"].Bool? then ChangeExistence(raw.fields["exists"].flag)
                   else Unknown)
  {
  }

  /** The reason is its text, trimmed, if anything is left of it. */
  lemma ReasonIsRead(kind: ProposalKind, raw: Json)
    requires raw.Object?
    ensures FromJson(kind, raw).reason ==
              if "reason" in raw.fields && raw.fields["reason"].Str? && Trim(raw.fields["reason"].text) != ""
              then Some(Trim(raw.fields["reason"].text)) else None
  {
  }

  // ---------------------------------------------------------------------------
  // The override merge
  // ---------------------------------------------------------------------------

  datatype Override = Override(lat: Option<real>, lon: Option<real>, timezone: Option<string>, present: Option<bool>)

  const EMPTY_OVERRIDE := Override(None, None, None, None)

  datatype Field = Lat | Lon | Timezone | Existence

  /** The values an approval writes. */
  datatype Application =
    | ApplyMove(lat: real, lon: real, timezone: string)
    | ApplyExistence(present: bool)

  function Or<T>(first: Option<T>, second: Option<T>): Option<T> {
    if first.Some? then first else second
  }

  /** `known` decides which names are IANA timezones. */
  function ValidateMove(lat: Option<real>, lon: Option<real>, timezone: Option<string>, known: string -> bool)
    : (r: Result<Application, Field>)
    ensures r.Success? ==>
      && r.value.ApplyMove? && LatInRange(r.value.lat) && LonInRange(r.value.lon)
      && known(r.value.timezone) && r.value.timezone != ""
  {
    if lat.None? then Failure(Lat)
    else if lon.None? then Failure(Lon)
    else if !LatInRange(lat.value) then Failure(Lat)
    else if !LonInRange(lon.value) then Failure(Lon)
    else
      var name := NonBlank(timezone);
      if name.None? || !known(name.value) then Failure(Timezone)
      else Success(ApplyMove(lat.value, lon.value, name.value))
  }

  /** What the moderator retyped wins; a field left empty keeps the proposer's value.
      What comes out belongs to the row's kind and is in range, whatever was stored. */
  function Merge(kind: ProposalKind, change: ProposedChange, over: Override, known: string -> bool)
    : (r: Result<Application, Field>)
    ensures r.Success? ==>
      && (r.value.ApplyMove? <==> kind.MoveKind?)
      && (r.value.ApplyMove? ==>
            -90.0 <= r.value.lat <= 90.0 && -180.0 <= r.value.lon <= 180.0 && known(r.value.timezone))
  {
    match (kind, change)
    case (MoveKind, MoveLocation(lat, lon, timezone)) =>
      ValidateMove(Or(over.lat, Some(lat)), Or(over.lon, Some(lon)), Or(over.timezone, timezone), known)
    case (ExistenceKind, ChangeExistence(present)) =>
      Success(ApplyExistence(if over.present.Some? then over.present.value else present))
    case (MoveKind, _) => ValidateMove(over.lat, over.lon, over.timezone, known)
    case (ExistenceKind, _) =>
      if over.present.Some? then Success(ApplyExistence(over.present.value)) else Failure(Existence)
  }

  /** With nothing retyped, a stored payload is applied as it stands, or refused for
      the one thing it lacks. */
  lemma EmptyOverrideReproduces(kind: ProposalKind, raw: Json, known: string -> bool)
    ensures
      var change := FromJson(kind, raw).change;
      Merge(kind, change, EMPTY_OVERRIDE, known) ==
        match change
        case MoveLocation(lat, lon, Some(tz)) =>
          if known(tz) then Success(ApplyMove(lat, lon, tz)) else Failure(Timezone)
        case MoveLocation(_, _, None) => Failure(Timezone)
        case ChangeExistence(present) => Success(ApplyExistence(present))
        case Unknown => Failure(if kind.MoveKind? then Lat else Existence)
  {
    ParsedIsCanonical(kind, raw);
    var change := FromJson(kind, raw).change;
    if change.MoveLocation? && change.timezone.Some? {
      TrimTrimmed(change.timezone.value);
    }
  }

  /** Of each field of a move the retyped value counts, else the stored one; what is missing
      or out of range is refused by name, in this order. */
  lemma MoveMerges(lat: Option<real>, lon: Option<real>, timezone: Option<string>, change: ProposedChange,
                   known: string -> bool)
    ensures
      var stored := change.MoveLocation?;
      var la := if lat.Some? then lat else if stored then Some(change.lat) else None;
      var lo := if lon.Some? then lon else if stored then Some(change.lon) else None;
      var tz := if timezone.Some? then timezone else if stored then change.timezone else None;
      Merge(MoveKind, change, Override(lat, lon, timezone, None), known) ==
        if la.None? then Failure(Lat)
        else if lo.None? then Failure(Lon)
        else if la.value < -90.0 || la.value > 90.0 then Failure(Lat)
        else if lo.value < -180.0 || lo.value > 180.0 then Failure(Lon)
        else if tz.None? || Trim(tz.value) == "" || !known(Trim(tz.value)) then Failure(Timezone)
        else Success(ApplyMove(la.value, lo.value, Trim(tz.value)))
  {
  }

  /** Likewise of an existence proposal; the fields of the other kind do not matter. */
  lemma ExistenceMerges(over: Override, change: ProposedChange, known: string -> bool)
    ensures Merge(ExistenceKind, change, over, known) ==
              if over.present.Some? then Success(ApplyExistence(over.present.value))
              else if change.ChangeExistence? then Success(ApplyExistence(change.present))
              else Failure(Existence)
    ensures Merge(MoveKind, change, over, known) == Merge(MoveKind, change, over.(present := None), known)
  {
  }

  /** The override alone decides the outcome: it fills every field of the kind, or its
      coordinates are both given and already out of range. */
  predicate Decisive(kind: ProposalKind, over: Override) {
    match kind
    case MoveKind =>
      && over.lat.Some? && over.lon.Some?
      && (over.timezone.Some? || !LatInRange(over.lat.value) || !LonInRange(over.lon.value))
    case ExistenceKind => over.present.Some?
  }

  /** The outcome of a merge is independent of the stored payload exactly when the
      override is decisive.  (`tz` only witnesses that some timezone is known.) */
  lemma IndependentIffDecisive(kind: ProposalKind, over: Override, known: string -> bool, tz: string)
    requires tz != "" && Trimmed(tz) && known(tz)
    ensures Decisive(kind, over) <==>
              forall change, change' :: Merge(kind, change, over, known) == Merge(kind, change', over, known)
  {
    if !Decisive(kind, over) {
      TrimTrimmed(tz);
      var stored := if kind.MoveKind? then MoveLocation(0.0, 0.0, Some(tz)) else ChangeExistence(true);
      assert Merge(kind, stored, over, known) != Merge(kind, Unknown, over, known);
    }
  }
}
