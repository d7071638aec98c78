/**
 * The request schemas for healers and bookings: what a payload must hold
 * to be accepted (length and range bounds, required and optional fields,
 * defaults), the records an accepted payload becomes, and the fields a
 * record is dumped to when it is stored.
 *
 * Email syntax is the foreign `EmailStr` validator; it is a parameter
 * `isEmail` throughout.
 */
module Schemas {
  import opened Wrappers
  import opened ObjectIds
  import opened Documents

  /** A payload field as the client sends it: left out, sent as null, or sent with a value. */
  datatype Field<+T> = Omitted | Null | Given(value: T)

  /** Names of the fields that failed validation, in declaration order. */
  type Errors = seq<string>

  const DefaultRating: real := 4.9

  // ---------------------------------------------------------------------------
  // Healer

  /**
   * A healer payload; `extra` holds any field the schema does not declare,
   * which validation drops.
   */
  datatype HealerPayload = HealerPayload(
    name: Field<string>,
    specialty: Field<string>,
    bio: Field<string>,
    email: Field<string>,
    avatarUrl: Field<string>,
    rating: Field<real>,
    extra: Doc)

  datatype Healer = Healer(
    name: string,
    specialty: string,
    bio: Option<string>,
    email: Option<string>,
    avatarUrl: Option<string>,
    rating: Option<real>)

  /** The value a client sent for an optional field; None when it was left out or null. */
  function Sent<T>(f: Field<T>): Option<T> {
    if f.Given? then Some(f.value) else None
  }

  /** The field constraints of a healer record. */
  predicate ValidHealer(h: Healer, isEmail: string -> bool) {
    && 2 <= |h.name| <= 100
    && 2 <= |h.specialty|
    && (h.bio.Some? ==> |h.bio.value| <= 1000)
    && (h.email.Some? ==> isEmail(h.email.value))
    && (h.rating.Some? ==> 0.0 <= h.rating.value <= 5.0)
  }

  /** A required string field with a minimum and an optional maximum length. */
  function RequiredText(f: Field<string>, minLen: nat, maxLen: Option<nat>): Option<string> {
    match f
    case Given(s) => if minLen <= |s| && (maxLen.None? || |s| <= maxLen.value) then Some(s) else None
    case _ => None
  }

  /** An optional string field with a maximum length; the outer None rejects. */
  function OptionalText(f: Field<string>, maxLen: Option<nat>): Option<Option<string>> {
    match f
    case Given(s) => if maxLen.None? || |s| <= maxLen.value then Some(Some(s)) else None
    case _ => Some(None)
  }

  function OptionalEmail(f: Field<string>, isEmail: string -> bool): Option<Option<string>> {
    match f
    case Given(s) => if isEmail(s) then Some(Some(s)) else None
    case _ => Some(None)
  }

  /** The rating: defaults to 4.9 when left out; null is kept as no rating. */
  function Rating(f: Field<real>): Option<Option<real>> {
    match f
    case Omitted => Some(Some(DefaultRating))
    case Null => Some(None)
    case Given(x) => if 0.0 <= x <= 5.0 then Some(Some(x)) else None
  }

  function Flag(name: string, bad: bool): Errors {
    if bad then [name] else []
  }

  function HealerErrors(p: HealerPayload, isEmail: string -> bool): Errors {
    Flag("name", RequiredText(p.name, 2, Some(100)).None?)
    + Flag("specialty", RequiredText(p.specialty, 2, None).None?)
    + Flag("bio", OptionalText(p.bio, Some(1000)).None?)
    + Flag("email", OptionalEmail(p.email, isEmail).None?)
    + Flag("avatar_url", OptionalText(p.avatarUrl, None).None?)
    + Flag("rating", Rating(p.rating).None?)
  }

  /** Validation of a healer payload: the record, or every field that failed. */
  function ParseHealer(p: HealerPayload, isEmail: string -> bool): (r: Result<Healer, Errors>)
    ensures r.Ok? ==> ValidHealer(r.value, isEmail)
    ensures r.Ok? ==> p.name == Given(r.value.name) && p.specialty == Given(r.value.specialty)
    ensures r.Ok? ==> r.value.bio == Sent(p.bio) && r.value.email == Sent(p.email)
    ensures r.Ok? ==> r.value.avatarUrl == Sent(p.avatarUrl)
    ensures r.Ok? ==> r.value.rating == if p.rating.Omitted? then Some(DefaultRating) else Sent(p.rating)
    ensures r.Err? ==> r.error != []
  {
    var errs := HealerErrors(p, isEmail);
    if errs != [] then Err(errs)
    else
      Ok(Healer(
        RequiredText(p.name, 2, Some(100)).value,
        RequiredText(p.specialty, 2, None).value,
        OptionalText(p.bio, Some(1000)).value,
        OptionalEmail(p.email, isEmail).value,
        OptionalText(p.avatarUrl, None).value,
        Rating(p.rating).value))
  }

  /** The payload a client sends for a record, every field present. */
  function HealerPayloadOf(h: Healer, extra: Doc): HealerPayload {
    HealerPayload(
      Given(h.name), Given(h.specialty), FieldOf(h.bio), FieldOf(h.email),
      FieldOf(h.avatarUrl), FieldOf(h.rating), extra)
  }

  function FieldOf<T>(o: Option<T>): Field<T> {
    match o
    case None => Null
    case Some(x) => Given(x)
  }

  /** An accepted healer holds exactly what the payload sent. */
  lemma ParseHealerKeepsFields(p: HealerPayload, isEmail: string -> bool)
    requires ParseHealer(p, isEmail).Ok?
    ensures var h := ParseHealer(p, isEmail).value;
      && p.name == Given(h.name) && p.specialty == Given(h.specialty)
      && (p.bio.Given? <==> h.bio.Some?) && (h.bio.Some? ==> p.bio.value == h.bio.value)
      && (p.email.Given? <==> h.email.Some?) && (h.email.Some? ==> p.email.value == h.email.value)
      && (p.avatarUrl.Given? <==> h.avatarUrl.Some?)
      && (h.avatarUrl.Some? ==> p.avatarUrl.value == h.avatarUrl.value)
      && (p.rating.Given? ==> h.rating == Some(p.rating.value))
  {
  }

  /** Every valid healer is accepted when sent in full, whatever extra fields come along, and comes back unchanged. */
  lemma ParseHealerComplete(h: Healer, extra: Doc, isEmail: string -> bool)
    requires ValidHealer(h, isEmail)
    ensures ParseHealer(HealerPayloadOf(h, extra), isEmail) == Ok(h)
  {
  }

  /** Fields the healer schema does not declare never reach the record. */
  lemma ParseHealerIgnoresExtra(p: HealerPayload, extra: Doc, isEmail: string -> bool)
    ensures ParseHealer(p.(extra := extra), isEmail) == ParseHealer(p, isEmail)
  {
  }

  /** A name outside 2..100 characters is rejected, whatever the other fields hold. */
  lemma HealerNameBounds(p: HealerPayload, isEmail: string -> bool)
    requires p.name.Given? && (|p.name.value| < 2 || 100 < |p.name.value|)
    ensures ParseHealer(p, isEmail).Err? && "name" in ParseHealer(p, isEmail).error
  {
  }

  /** The specialty has a lower bound and no upper bound. */
  lemma SpecialtyUnbounded(h: Healer, s: string, isEmail: string -> bool)
    requires ValidHealer(h, isEmail)
    ensures ValidHealer(h.(specialty := s), isEmail) <==> 2 <= |s|
  {
  }

  /** The avatar URL is never the reason a healer is rejected. */
  lemma AvatarUrlUnconstrained(p: HealerPayload, isEmail: string -> bool)
    ensures "avatar_url" !in HealerErrors(p, isEmail)
  {
  }

  /**
   * When a healer payload is accepted, stated on what the client sent:
   * name and specialty are required, the other fields may be left out or null.
   */
  predicate HealerPayloadOk(p: HealerPayload, isEmail: string -> bool) {
    && p.name.Given? && 2 <= |p.name.value| <= 100
    && p.specialty.Given? && 2 <= |p.specialty.value|
    && (p.bio.Given? ==> |p.bio.value| <= 1000)
    && (p.email.Given? ==> isEmail(p.email.value))
    && (p.rating.Given? ==> 0.0 <= p.rating.value <= 5.0)
  }

  /** A healer payload is accepted exactly when it meets the field constraints. */
  lemma ParseHealerAccepts(p: HealerPayload, isEmail: string -> bool)
    ensures ParseHealer(p, isEmail).Ok? <==> HealerPayloadOk(p, isEmail)
  {
  }

  /**
   * A left-out rating is never an error and becomes 4.9; a null rating is
   * never an error and stays absent.
   */
  lemma RatingDefault(p: HealerPayload, isEmail: string -> bool)
    ensures !p.rating.Given? ==> "rating" !in HealerErrors(p, isEmail)
    ensures p.rating.Omitted? && ParseHealer(p, isEmail).Ok? ==>
      ParseHealer(p, isEmail).value.rating == Some(DefaultRating)
    ensures p.rating.Null? && ParseHealer(p, isEmail).Ok? ==>
      ParseHealer(p, isEmail).value.rating == None
  {
  }

  /** A payload holding only a name and a specialty is accepted, rated 4.9. */
  lemma MinimalHealerAccepted(name: string, specialty: string, isEmail: string -> bool)
    requires 2 <= |name| <= 100 && 2 <= |specialty|
    ensures ParseHealer(HealerPayload(Given(name), Given(specialty), Omitted, Omitted, Omitted, Omitted, map[]), isEmail)
      == Ok(Healer(name, specialty, None, None, None, Some(DefaultRating)))
  {
  }

  /** "rating" is among the errors exactly when a rating is sent outside [0, 5]. */
  lemma RatingRange(p: HealerPayload, isEmail: string -> bool)
    ensures "rating" in HealerErrors(p, isEmail) <==> p.rating.Given? && !(0.0 <= p.rating.value <= 5.0)
  {
  }

  /** The fields a healer record is dumped to for storage, nulls included. */
  function HealerFields(h: Healer): (d: Doc)
    ensures d.Keys == {"name", "specialty", "bio", "email", "avatar_url", "rating"}
    ensures d["name"] == VStr(h.name) && d["specialty"] == VStr(h.specialty)
    ensures d["avatar_url"] == (if h.avatarUrl.Some? then VStr(h.avatarUrl.value) else VNull)
  {
    map[
      "name" := VStr(h.name),
      "specialty" := VStr(h.specialty),
      "bio" := TextValue(h.bio),
      "email" := TextValue(h.email),
      "avatar_url" := TextValue(h.avatarUrl),
      "rating" := if h.rating.Some? then VReal(h.rating.value) else VNull]
  }

  function TextValue(o: Option<string>): Value {
    if o.Some? then VStr(o.value) else VNull
  }

  // ---------------------------------------------------------------------------
  // Booking

  /**
   * A booking payload; `extra` holds any field the schema does not declare
   * (a client-sent "created_at", say), which validation drops.
   */
  datatype BookingPayload = BookingPayload(
    customerName: Field<string>,
    customerEmail: Field<string>,
    healerId: Field<string>,
    notes: Field<string>,
    scheduledFor: Field<int>,
    extra: Doc)

  datatype Booking = Booking(
    customerName: string,
    customerEmail: string,
    healerId: string,
    notes: Option<string>,
    scheduledFor: Option<int>)

  /** The field constraints of a booking record; `healerId` has none at this level. */
  predicate ValidBooking(b: Booking, isEmail: string -> bool) {
    && 2 <= |b.customerName| <= 100
    && isEmail(b.customerEmail)
    && (b.notes.Some? ==> |b.notes.value| <= 1000)
  }

  function RequiredEmail(f: Field<string>, isEmail: string -> bool): Option<string> {
    match f
    case Given(s) => if isEmail(s) then Some(s) else None
    case _ => None
  }

  function BookingErrors(p: BookingPayload, isEmail: string -> bool): Errors {
    Flag("customer_name", RequiredText(p.customerName, 2, Some(100)).None?)
    + Flag("customer_email", RequiredEmail(p.customerEmail, isEmail).None?)
    + Flag("healer_id", RequiredText(p.healerId, 0, None).None?)
    + Flag("notes", OptionalText(p.notes, Some(1000)).None?)
  }

  /** Validation of a booking payload: the record, or every field that failed. */
  function ParseBooking(p: BookingPayload, isEmail: string -> bool): (r: Result<Booking, Errors>)
    ensures r.Ok? ==> ValidBooking(r.value, isEmail)
    ensures r.Ok? ==> p.healerId == Given(r.value.healerId)
    ensures r.Ok? ==> p.customerName == Given(r.value.customerName)
    ensures r.Ok? ==> p.customerEmail == Given(r.value.customerEmail)
    ensures r.Ok? ==> r.value.notes == Sent(p.notes) && r.value.scheduledFor == Sent(p.scheduledFor)
    ensures r.Err? ==> r.error != []
  {
    var errs := BookingErrors(p, isEmail);
    if errs != [] then Err(errs)
    else
      Ok(Booking(
        RequiredText(p.customerName, 2, Some(100)).value,
        RequiredEmail(p.customerEmail, isEmail).value,
        RequiredText(p.healerId, 0, None).value,
        OptionalText(p.notes, Some(1000)).value,
        if p.scheduledFor.Given? then Some(p.scheduledFor.value) else None))
  }

  function BookingPayloadOf(b: Booking, extra: Doc): BookingPayload {
    BookingPayload(
      Given(b.customerName), Given(b.customerEmail), Given(b.healerId),
      FieldOf(b.notes), FieldOf(b.scheduledFor), extra)
  }

  /** Every valid booking is accepted when sent in full, whatever extra fields come along. */
  lemma ParseBookingComplete(b: Booking, extra: Doc, isEmail: string -> bool)
    requires ValidBooking(b, isEmail)
    ensures ParseBooking(BookingPayloadOf(b, extra), isEmail) == Ok(b)
  {
  }

  /**
   * When a booking payload is accepted, stated on what the client sent:
   * customer name, customer email and healer_id are required.
   */
  predicate BookingPayloadOk(p: BookingPayload, isEmail: string -> bool) {
    && p.customerName.Given? && 2 <= |p.customerName.value| <= 100
    && p.customerEmail.Given? && isEmail(p.customerEmail.value)
    && p.healerId.Given?
    && (p.notes.Given? ==> |p.notes.value| <= 1000)
  }

  /** A booking payload is accepted exactly when it meets the field constraints. */
  lemma ParseBookingAccepts(p: BookingPayload, isEmail: string -> bool)
    ensures ParseBooking(p, isEmail).Ok? <==> BookingPayloadOk(p, isEmail)
  {
  }

  /** A missing customer name, one outside 2..100 characters, or a missing email, is rejected. */
  lemma CustomerFieldsRequired(p: BookingPayload, isEmail: string -> bool)
    ensures !p.customerName.Given? ==> "customer_name" in BookingErrors(p, isEmail)
    ensures p.customerName.Given? && (|p.customerName.value| < 2 || 100 < |p.customerName.value|)
      ==> "customer_name" in BookingErrors(p, isEmail)
    ensures !p.customerEmail.Given? ==> "customer_email" in BookingErrors(p, isEmail)
    ensures ParseBooking(p, isEmail).Ok? ==> 2 <= |ParseBooking(p, isEmail).value.customerName| <= 100
  {
  }

  /** An accepted booking holds exactly what the payload sent; what was left out or null is absent. */
  lemma ParseBookingKeepsFields(p: BookingPayload, isEmail: string -> bool)
    requires ParseBooking(p, isEmail).Ok?
    ensures var b := ParseBooking(p, isEmail).value;
      && p.customerName == Given(b.customerName) && p.customerEmail == Given(b.customerEmail)
      && p.healerId == Given(b.healerId)
      && (p.notes.Given? <==> b.notes.Some?) && (b.notes.Some? ==> p.notes.value == b.notes.value)
      && (p.scheduledFor.Given? <==> b.scheduledFor.Some?)
      && (b.scheduledFor.Some? ==> p.scheduledFor.value == b.scheduledFor.value)
  {
  }

  /** Any string is an acceptable healer_id as far as the schema goes; only its absence is an error. */
  lemma HealerIdAnyString(p: BookingPayload, isEmail: string -> bool)
    ensures "healer_id" in BookingErrors(p, isEmail) <==> !p.healerId.Given?
  {
  }

  /** Fields the schema does not declare never reach the record. */
  lemma ParseBookingIgnoresExtra(p: BookingPayload, extra: Doc, isEmail: string -> bool)
    ensures ParseBooking(p.(extra := extra), isEmail) == ParseBooking(p, isEmail)
  {
  }

  /** Notes, when sent, are at most 1000 characters. */
  lemma NotesBound(p: BookingPayload, isEmail: string -> bool)
    requires p.notes.Given?
    ensures "notes" in BookingErrors(p, isEmail) <==> 1000 < |p.notes.value|
  {
  }

  /** The dumped fields of a booking record: no "created_at" among them. */
  function BookingFields(b: Booking): (d: Doc)
    ensures d.Keys == {"customer_name", "customer_email", "healer_id", "notes", "scheduled_for"}
    ensures "created_at" !in d && "_id" !in d
    ensures d["healer_id"] == VStr(b.healerId)
  {
    map[
      "customer_name" := VStr(b.customerName),
      "customer_email" := VStr(b.customerEmail),
      "healer_id" := VStr(b.healerId),
      "notes" := TextValue(b.notes),
      "scheduled_for" := if b.scheduledFor.Some? then VDate(b.scheduledFor.value) else VNull]
  }

  // ---------------------------------------------------------------------------
  // Reading stored records back

  /** A stored optional text field: a string, or null for no value; anything else is ill-typed. */
  function TextOf(v: Value): Option<Option<string>> {
    match v
    case VNull => Some(None)
    case VStr(s) => Some(Some(s))
    case _ => None
  }

  /** The healer record a stored document holds, or None when a schema field is missing or ill-typed. */
  function HealerOf(d: Doc): Option<Healer> {
    if && "name" in d && d["name"].VStr?
       && "specialty" in d && d["specialty"].VStr?
       && "bio" in d && TextOf(d["bio"]).Some?
       && "email" in d && TextOf(d["email"]).Some?
       && "avatar_url" in d && TextOf(d["avatar_url"]).Some?
       && "rating" in d && (d["rating"].VNull? || d["rating"].VReal?)
    then
      Some(Healer(
        d["name"].s, d["specialty"].s,
        TextOf(d["bio"]).value, TextOf(d["email"]).value, TextOf(d["avatar_url"]).value,
        if d["rating"].VReal? then Some(d["rating"].r) else None))
    else None
  }

  /** The booking record a stored document holds, or None when a schema field is missing or ill-typed. */
  function BookingOf(d: Doc): Option<Booking> {
    if && "customer_name" in d && d["customer_name"].VStr?
       && "customer_email" in d && d["customer_email"].VStr?
       && "healer_id" in d && d["healer_id"].VStr?
       && "notes" in d && TextOf(d["notes"]).Some?
       && "scheduled_for" in d && (d["scheduled_for"].VNull? || d["scheduled_for"].VDate?)
    then
      Some(Booking(
        d["customer_name"].s, d["customer_email"].s, d["healer_id"].s,
        TextOf(d["notes"]).value,
        if d["scheduled_for"].VDate? then Some(d["scheduled_for"].t) else None))
    else None
  }

  /** A stored healer document reads back as the record it was stored from, every field included. */
  lemma HealerFieldsRoundTrip(h: Healer, id: ObjectId, createdAt: Option<int>)
    ensures HealerOf(HealerFields(h)) == Some(h)
    ensures HealerOf(Stamped(HealerFields(h), id, createdAt)) == Some(h)
  {
  }

  /** A document that reads back as a healer holds that healer's dumped fields. */
  lemma HealerOfFields(d: Doc)
    requires HealerOf(d).Some?
    ensures forall k :: k in HealerFields(HealerOf(d).value) ==>
      k in d && d[k] == HealerFields(HealerOf(d).value)[k]
  {
  }

  /** A stored booking document reads back as the record it was stored from, every field included. */
  lemma BookingFieldsRoundTrip(b: Booking, id: ObjectId, createdAt: Option<int>)
    ensures BookingOf(BookingFields(b)) == Some(b)
    ensures BookingOf(Stamped(BookingFields(b), id, createdAt)) == Some(b)
  {
  }

  /** A document that reads back as a booking holds that booking's dumped fields. */
  lemma BookingOfFields(d: Doc)
    requires BookingOf(d).Some?
    ensures forall k :: k in BookingFields(BookingOf(d).value) ==>
      k in d && d[k] == BookingFields(BookingOf(d).value)[k]
  {
  }
}
