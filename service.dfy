/**
 * The healer and booking endpoints over the document store. The store holds
 * the "healer" collection as a map from identifier to document and the
 * "booking" collection as a sequence in insertion order; `available` is
 * false when the process started without a database handle.
 *
 * What the database driver decides (the identifier it generates, the stamp
 * the storage helper adds, whether a call fails, which documents a fetch
 * returns) is passed in as parameters.
 */
module Service {
  import opened Wrappers
  import opened ObjectIds
  import opened Documents
  import opened Schemas
  import opened Listing

  /** The response of a create endpoint. */
  datatype Outcome =
    | Created(id: ObjectId)   // 200 with {"id": ...}
    | BadRef                  // 400 "Invalid healer_id"
    | NotFound                // 404 "Healer not found"
    | StoreErr                // 500 with the driver's message
  {
    /** The HTTP status code of the response. */
    function Status(): int {
      match this
      case Created(_) => 200
      case BadRef => 400
      case NotFound => 404
      case StoreErr => 500
    }
  }

  /**
   * A fetch of at most `limit` documents (a positive limit; the driver reads
   * 0 as no limit) drawn from a collection, each at most once, in no order
   * the model relies on.
   */
  predicate FetchedFrom(docs: seq<Doc>, stored: multiset<Doc>, limit: int) {
    multiset(docs) <= stored && (limit > 0 ==> |docs| <= limit)
  }

  /** A fetch from the healer collection yields stored healer documents. */
  lemma FetchedHealersWellFormed(hs: map<ObjectId, Doc>, docs: seq<Doc>, limit: int)
    requires HealersIndexed(hs) && FetchedFrom(docs, multiset(hs.Values), limit)
    ensures forall i :: 0 <= i < |docs| ==> WellFormed(docs[i])
  {
    forall i | 0 <= i < |docs| ensures WellFormed(docs[i]) {
      assert docs[i] in multiset(docs);
      assert docs[i] in hs.Values;
      var o :| o in hs && hs[o] == docs[i];
    }
  }

  /** A fetch from the booking collection yields stored booking documents. */
  lemma FetchedBookingsWellFormed(bs: seq<Doc>, docs: seq<Doc>, limit: int)
    requires forall i :: 0 <= i < |bs| ==> WellFormed(bs[i])
    requires FetchedFrom(docs, multiset(bs), limit)
    ensures forall i :: 0 <= i < |docs| ==> WellFormed(docs[i])
  {
    forall i | 0 <= i < |docs| ensures WellFormed(docs[i]) {
      assert docs[i] in multiset(docs);
      assert docs[i] in bs;
    }
  }

  class Store {
    const available: bool
    var healers: map<ObjectId, Doc>
    var bookings: seq<Doc>

    /** Every document carries its identifier; booking identifiers are unique. */
    ghost predicate Valid()
      reads this
    {
      && HealersIndexed(healers)
      && (forall i :: 0 <= i < |bookings| ==> WellFormed(bookings[i]))
      && (forall i, j :: 0 <= i < j < |bookings| ==> IdOf(bookings[i]) != IdOf(bookings[j]))
    }

    constructor (available: bool)
      ensures Valid()
      ensures this.available == available && healers == map[] && bookings == []
    {
      this.available := available;
      healers := map[];
      bookings := [];
    }

    /** The booking collection already holds a document with identifier `id`. */
    predicate BookingIdTaken(id: ObjectId)
      reads this
      requires Valid()
    {
      exists i :: 0 <= i < |bookings| && IdOf(bookings[i]) == id
    }

    /**
     * POST /healers. The storage helper inserts the dumped record under the
     * identifier `newId`; the insert fails (500) when there is no database,
     * when the driver reports an error, or when the identifier is taken.
     */
    method CreateHealer(h: Healer, ghost isEmail: string -> bool,
                        newId: ObjectId, createdAt: Option<int>, insertFails: bool)
      returns (r: Outcome)
      requires Valid() && ValidHealer(h, isEmail)
      modifies this
      ensures Valid()
      ensures bookings == old(bookings)
      ensures r.Status() == 500 <==> (!available || insertFails || newId in old(healers))
      ensures r.Status() == 500 ==> healers == old(healers)
      ensures r.Status() != 500 ==> healers == old(healers)[newId := Stamped(HealerFields(h), newId, createdAt)]
      ensures r.Status() != 500 ==> r == Created(newId)
      ensures r.Status() != 500 ==> HealerOf(healers[newId]) == Some(h)
    {
      if !available || insertFails || newId in healers {
        return StoreErr;
      }
      healers := healers[newId := Stamped(HealerFields(h), newId, createdAt)];
      HealerFieldsRoundTrip(h, newId, createdAt);
      r := Created(newId);
    }

    /**
     * POST /bookings. The healer_id must parse as an identifier (else 400)
     * and name a stored healer (else 404; with no database there is no
     * lookup and the answer is 404 too); only then is the booking inserted.
     * `lookupFails` is a driver error raised by the lookup itself.
     */
    method CreateBooking(b: Booking, ghost isEmail: string -> bool,
                         newId: ObjectId, createdAt: Option<int>,
                         lookupFails: bool, insertFails: bool)
      returns (r: Outcome)
      requires Valid() && ValidBooking(b, isEmail)
      modifies this
      ensures Valid()
      ensures healers == old(healers)
      ensures r.Status() == 400 <==> ParseObjectId(b.healerId).None?
      ensures r.Status() == 404 <==>
        && ParseObjectId(b.healerId).Some?
        && (!available || (!lookupFails && ParseObjectId(b.healerId).value !in healers))
      ensures r.Status() == 500 <==>
        && ParseObjectId(b.healerId).Some? && available
        && (|| lookupFails
            || (ParseObjectId(b.healerId).value in healers && (insertFails || old(BookingIdTaken(newId)))))
      ensures r.Status() == 200 ==> r == Created(newId)
      ensures r.Status() == 200 ==> bookings == old(bookings) + [Stamped(BookingFields(b), newId, createdAt)]
      ensures r.Status() == 200 ==> BookingOf(bookings[|bookings| - 1]) == Some(b)
      ensures r.Status() != 200 ==> bookings == old(bookings)
    {
      var ref := ParseObjectId(b.healerId);
      if ref.None? {
        return BadRef;
      }
      if !available {
        return NotFound;
      }
      if lookupFails {
        return StoreErr;
      }
      if ref.value !in healers {
        return NotFound;
      }
      if insertFails || BookingIdTaken(newId) {
        return StoreErr;
      }
      var doc := Stamped(BookingFields(b), newId, createdAt);
      bookings := bookings + [doc];
      BookingFieldsRoundTrip(b, newId, createdAt);
      r := Created(newId);
    }

    /**
     * GET /healers. `fetched` is what the storage helper returned for the
     * healer collection, or None when it raised (500). Each document is
     * renamed in place; order and length are kept.
     */
    method ListHealers(limit: int, fetched: Option<seq<Doc>>) returns (r: Result<seq<Doc>, int>)
      requires Valid()
      requires fetched.Some? ==> FetchedFrom(fetched.value, multiset(healers.Values), limit)
      ensures r.Ok? <==> fetched.Some?
      ensures r.Err? ==> r.error == 500
      ensures r.Ok? ==> |r.value| == |fetched.value|
      ensures r.Ok? ==> forall i :: 0 <= i < |r.value| ==>
        WellFormed(fetched.value[i]) && Renamed(fetched.value[i], r.value[i])
    {
      if fetched.None? {
        return Err(500);
      }
      var f := fetched.value;
      FetchedHealersWellFormed(healers, f, limit);
      var docs := new Doc[|f|](i => if 0 <= i < |f| then f[i] else map[]);
      assert docs[..] == f;
      RenameEach(docs);
      forall i | 0 <= i < |f| ensures Renamed(f[i], docs[i]) {
        RenameIdRenames(f[i]);
      }
      r := Ok(docs[..]);
    }

    /**
     * GET /bookings. Each fetched booking is renamed, enriched with a summary
     * of its healer when the reference resolves (lookup failures are
     * swallowed; with no database nothing resolves), appended to the
     * result, and the result is then sorted newest first.
     */
    method ListBookings(limit: int, fetched: Option<seq<Doc>>) returns (r: Result<seq<Doc>, int>)
      requires Valid()
      requires fetched.Some? ==> FetchedFrom(fetched.value, multiset(bookings), limit)
      ensures r.Ok? <==> fetched.Some?
      ensures r.Err? ==> r.error == 500
      ensures r.Ok? ==> forall i :: 0 <= i < |fetched.value| ==> WellFormed(fetched.value[i])
      ensures r.Ok? ==>
        var listed := EnrichAll(fetched.value, if available then healers else map[]);
        && r.value == SortDesc(listed)
        && multiset(r.value) == multiset(listed)
        && SortedDesc(r.value)
        && forall k :: WithKey(r.value, k) == WithKey(listed, k)
    {
      if fetched.None? {
        return Err(500);
      }
      var f := fetched.value;
      FetchedBookingsWellFormed(bookings, f, limit);
      var hs: map<ObjectId, Doc> := if available then healers else map[];
      var result := EnrichEach(f, hs);
      var listed := EnrichAll(f, hs);
      var a := new Doc[|result|](j => if 0 <= j < |result| then result[j] else map[]);
      assert a[..] == result;
      SortByCreatedAtDesc(a);
      r := Ok(a[..]);
      assert multiset(r.value) == multiset(listed) && SortedDesc(r.value) by {
        SortPermutes(listed);
        SortSorted(listed);
      }
      assert forall k :: WithKey(r.value, k) == WithKey(listed, k) by {
        forall k ensures WithKey(r.value, k) == WithKey(listed, k) {
          SortStable(listed, k);
        }
      }
    }
  }
}
