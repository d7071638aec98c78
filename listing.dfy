/**
 * How fetched documents are turned into a listing: the store identifier
 * "_id" is replaced by its string form under "id"; a booking is enriched
 * with a summary of the healer it references when that reference resolves;
 * the bookings are ordered by "created_at", newest first, stably.
 */
module Listing {
  import opened Wrappers
  import opened ObjectIds
  import opened Documents

  // ---------------------------------------------------------------------------
  // Renaming the identifier

  /** `after` is `before` with "_id" gone and its string form under "id". */
  ghost predicate Renamed(before: Doc, after: Doc)
    requires WellFormed(before)
  {
    && "_id" !in after
    && "id" in after && after["id"] == VStr(IdString(IdOf(before)))
    && (forall k :: k != "id" && k != "_id" ==> (k in after <==> k in before))
    && (forall k :: k in after && k != "id" && k != "_id" ==> after[k] == before[k])
  }

  /** The identifier written under "id" as a string, then "_id" removed. */
  function RenameId(d: Doc): Doc
    requires WellFormed(d)
  {
    d["id" := VStr(IdString(d["_id"].oid))] - {"_id"}
  }

  lemma RenameIdRenames(d: Doc)
    requires WellFormed(d)
    ensures Renamed(d, RenameId(d))
  {
  }

  // ---------------------------------------------------------------------------
  // Healer lookup

  /** Every healer document sits under its own identifier. */
  predicate HealersIndexed(hs: map<ObjectId, Doc>) {
    forall o :: o in hs ==> WellFormed(hs[o]) && IdOf(hs[o]) == o
  }

  /**
   * The identifier a booking references. None stands for every way the
   * conversion raises: a missing "healer_id", a string that is not 24 hex
   * digits, a value of another type.
   */
  function ReferencedId(d: Doc): Option<ObjectId> {
    if "healer_id" !in d then None
    else
      match d["healer_id"]
      case VStr(s) => ParseObjectId(s)
      case VOid(o) => Some(o)
      case _ => None
  }

  /** The referenced healer exists among `hs`. */
  predicate Resolves(d: Doc, hs: map<ObjectId, Doc>) {
    ReferencedId(d).Some? && ReferencedId(d).value in hs
  }

  /** The public fields of a healer: id, name, specialty and avatar URL. */
  function Summary(h: Doc): Doc
    requires WellFormed(h)
  {
    map[
      "id" := VStr(IdString(h["_id"].oid)),
      "name" := Get(h, "name"),
      "specialty" := Get(h, "specialty"),
      "avatar_url" := Get(h, "avatar_url")]
  }

  /** A summary holds exactly the healer's id (as a string), name, specialty and avatar URL. */
  lemma SummaryFields(h: Doc)
    requires WellFormed(h)
    ensures Summary(h).Keys == {"id", "name", "specialty", "avatar_url"}
    ensures Summary(h)["id"] == VStr(IdString(IdOf(h)))
    ensures forall k :: k in Summary(h) && k != "id" ==> Summary(h)[k] == Get(h, k)
  {
  }

  /** One fetched booking as it is listed (before ordering). */
  function Enrich(d: Doc, hs: map<ObjectId, Doc>): Doc
    requires WellFormed(d) && HealersIndexed(hs)
  {
    var e := RenameId(d);
    if Resolves(e, hs) then e["healer" := VDoc(Summary(hs[ReferencedId(e).value]))] else e
  }

  /**
   * A listed booking carries a summary of the healer it references when the
   * reference parses and resolves; otherwise it is only renamed. Either way
   * "healer_id" and every field other than "_id", "id" and "healer" are kept.
   */
  lemma EnrichSpec(d: Doc, hs: map<ObjectId, Doc>)
    requires WellFormed(d) && HealersIndexed(hs)
    ensures var e := Enrich(d, hs);
      && "_id" !in e
      && "id" in e && e["id"] == VStr(IdString(IdOf(d)))
      && (forall k :: k !in {"id", "_id", "healer"} ==> (k in e <==> k in d))
      && (forall k :: k in e && k !in {"id", "_id", "healer"} ==> e[k] == d[k])
      && ("healer_id" in d ==> "healer_id" in e && e["healer_id"] == d["healer_id"])
      && (Resolves(d, hs) ==>
            "healer" in e && e["healer"] == VDoc(Summary(hs[ReferencedId(d).value])))
      && (!Resolves(d, hs) ==> ("healer" in e <==> "healer" in d))
      && (!Resolves(d, hs) && "healer" in d ==> e["healer"] == d["healer"])
  {
    var r := RenameId(d);
    RenameIdRenames(d);
    assert ReferencedId(r) == ReferencedId(d) by {
      assert ("healer_id" in r <==> "healer_id" in d);
      assert "healer_id" in r ==> r["healer_id"] == d["healer_id"];
    }
  }

  /** The summary attached to a booking names the very healer it references. */
  lemma SummaryNamesReferencedHealer(d: Doc, hs: map<ObjectId, Doc>)
    requires WellFormed(d) && HealersIndexed(hs) && Resolves(d, hs)
    ensures var e := Enrich(d, hs);
      && "healer" in e && e["healer"].VDoc?
      && e["healer"].fields["id"] == VStr(IdString(ReferencedId(d).value))
      && (d["healer_id"].VStr? ==> e["healer"].fields["id"] == VStr(LowerAll(d["healer_id"].s)))
  {
    EnrichSpec(d, hs);
    var o := ReferencedId(d).value;
    if d["healer_id"].VStr? {
      IdStringOfParse(d["healer_id"].s, o);
    }
  }

  /**
   * For a booking stored without a "healer" field (every booking the create
   * endpoint writes), the listing carries a summary exactly when the
   * reference resolves.
   */
  lemma SummaryIffResolves(d: Doc, hs: map<ObjectId, Doc>)
    requires WellFormed(d) && HealersIndexed(hs) && "healer" !in d
    ensures "healer" in Enrich(d, hs) <==> Resolves(d, hs)
  {
    EnrichSpec(d, hs);
  }

  /** Every booking of a fetch, enriched, in fetch order. */
  function EnrichAll(ds: seq<Doc>, hs: map<ObjectId, Doc>): (r: seq<Doc>)
    requires forall i :: 0 <= i < |ds| ==> WellFormed(ds[i])
    requires HealersIndexed(hs)
    ensures |r| == |ds|
    ensures forall i :: 0 <= i < |ds| ==> r[i] == Enrich(ds[i], hs)
  {
    if ds == [] then [] else [Enrich(ds[0], hs)] + EnrichAll(ds[1..], hs)
  }

  /** The loop of GET /healers: every document of the list is renamed in place. */
  method RenameEach(docs: array<Doc>)
    requires forall i :: 0 <= i < docs.Length ==> WellFormed(docs[i])
    modifies docs
    ensures forall i :: 0 <= i < docs.Length ==> old(WellFormed(docs[i])) && docs[i] == RenameId(old(docs[i]))
  {
    var i := 0;
    while i < docs.Length
      invariant 0 <= i <= docs.Length
      invariant forall j :: 0 <= j < i ==> docs[j] == RenameId(old(docs[j]))
      invariant forall j :: i <= j < docs.Length ==> docs[j] == old(docs[j])
    {
      var d := docs[i];
      d := d["id" := VStr(IdString(d["_id"].oid))];
      d := d - {"_id"};
      docs[i] := d;
      i := i + 1;
    }
  }

  /**
   * The loop of GET /bookings: each fetched booking is renamed, given a
   * healer summary when its reference resolves among `hs`, and appended.
   */
  method EnrichEach(docs: seq<Doc>, hs: map<ObjectId, Doc>) returns (result: seq<Doc>)
    requires forall i :: 0 <= i < |docs| ==> WellFormed(docs[i])
    requires HealersIndexed(hs)
    ensures result == EnrichAll(docs, hs)
  {
    result := [];
    var i := 0;
    while i < |docs|
      invariant 0 <= i <= |docs|
      invariant |result| == i
      invariant forall j :: 0 <= j < i ==> result[j] == Enrich(docs[j], hs)
    {
      var d := docs[i];
      d := d["id" := VStr(IdString(d["_id"].oid))];
      d := d - {"_id"};
      var ref := ReferencedId(d);
      if ref.Some? && ref.value in hs {
        d := d["healer" := VDoc(Summary(hs[ref.value]))];
      }
      result := result + [d];
      i := i + 1;
    }
  }

  // ---------------------------------------------------------------------------
  // Ordering by creation time, newest first

  /** The sort key: the "created_at" stamp, or 0 when there is none. */
  function CreatedAt(d: Doc): int {
    if "created_at" in d && d["created_at"].VInt? then d["created_at"].i else 0
  }

  predicate SortedDesc(s: seq<Doc>) {
    forall i, j :: 0 <= i < j < |s| ==> CreatedAt(s[j]) <= CreatedAt(s[i])
  }

  /** The documents of `s` whose creation key is `k`, in their order in `s`. */
  function WithKey(s: seq<Doc>, k: int): seq<Doc> {
    if s == [] then []
    else WithKey(s[..|s| - 1], k) + (if CreatedAt(s[|s| - 1]) == k then [s[|s| - 1]] else [])
  }

  /** `x` placed after every element whose key is not smaller than its own. */
  function Insert(s: seq<Doc>, x: Doc): (r: seq<Doc>)
    ensures |r| == |s| + 1
  {
    if s == [] || CreatedAt(x) <= CreatedAt(s[|s| - 1]) then s + [x]
    else Insert(s[..|s| - 1], x) + [s[|s| - 1]]
  }

  /** A stable sort by creation key, largest first. */
  function SortDesc(s: seq<Doc>): (r: seq<Doc>)
    ensures |r| == |s|
  {
    if s == [] then [] else Insert(SortDesc(s[..|s| - 1]), s[|s| - 1])
  }

  lemma {:induction false} WithKeyAppend(a: seq<Doc>, b: seq<Doc>, k: int)
    ensures WithKey(a + b, k) == WithKey(a, k) + WithKey(b, k)
    decreases |b|
  {
    if b == [] {
      assert a + b == a;
    } else {
      var b' := b[..|b| - 1];
      assert (a + b)[..|a + b| - 1] == a + b';
      WithKeyAppend(a, b', k);
    }
  }

  lemma {:induction false} InsertPermutes(s: seq<Doc>, x: Doc)
    ensures multiset(Insert(s, x)) == multiset(s) + multiset{x}
    decreases |s|
  {
    if s != [] && CreatedAt(x) > CreatedAt(s[|s| - 1]) {
      var s' := s[..|s| - 1];
      InsertPermutes(s', x);
      assert s == s' + [s[|s| - 1]];
    }
  }

  lemma {:induction false} InsertSorted(s: seq<Doc>, x: Doc)
    requires SortedDesc(s)
    ensures SortedDesc(Insert(s, x))
    decreases |s|
  {
    if s != [] && CreatedAt(x) > CreatedAt(s[|s| - 1]) {
      var s', last := s[..|s| - 1], s[|s| - 1];
      InsertSorted(s', x);
      InsertPermutes(s', x);
      var t := Insert(s', x);
      forall i | 0 <= i < |t|
        ensures CreatedAt(last) <= CreatedAt(t[i])
      {
        assert t[i] in multiset(s') + multiset{x};
        if t[i] != x {
          assert t[i] in s';
          var j :| 0 <= j < |s'| && s'[j] == t[i];
          assert s[j] == t[i];
        }
      }
    }
  }

  lemma WithKeySingle(x: Doc, k: int)
    ensures WithKey([x], k) == if CreatedAt(x) == k then [x] else []
  {
    assert [x][..0] == [];
  }

  /** The inductive step of InsertStable: `x` moves in front of a last element with a smaller key. */
  lemma InsertStableStep(s': seq<Doc>, last: Doc, x: Doc, k: int)
    requires CreatedAt(x) > CreatedAt(last)
    requires WithKey(Insert(s', x), k) == WithKey(s', k) + WithKey([x], k)
    ensures WithKey(Insert(s' + [last], x), k) == WithKey(s' + [last], k) + WithKey([x], k)
  {
    var s := s' + [last];
    var wx, wl := WithKey([x], k), WithKey([last], k);
    assert WithKey(Insert(s, x), k) == WithKey(s', k) + wx + wl by {
      assert s[..|s| - 1] == s' && s[|s| - 1] == last;
      assert Insert(s, x) == Insert(s', x) + [last];
      WithKeyAppend(Insert(s', x), [last], k);
    }
    assert WithKey(s, k) == WithKey(s', k) + wl by {
      WithKeyAppend(s', [last], k);
    }
    assert wx + wl == wl + wx by {
      WithKeySingle(x, k);
      WithKeySingle(last, k);
    }
    calc {
      WithKey(Insert(s, x), k);
      WithKey(s', k) + wx + wl;
      WithKey(s', k) + (wx + wl);
      WithKey(s', k) + (wl + wx);
      WithKey(s', k) + wl + wx;
      WithKey(s, k) + wx;
    }
  }

  lemma {:induction false} InsertStable(s: seq<Doc>, x: Doc, k: int)
    ensures WithKey(Insert(s, x), k) == WithKey(s, k) + WithKey([x], k)
    decreases |s|
  {
    if s == [] || CreatedAt(x) <= CreatedAt(s[|s| - 1]) {
      WithKeyAppend(s, [x], k);
    } else {
      var s', last := s[..|s| - 1], s[|s| - 1];
      InsertStable(s', x, k);
      InsertStableStep(s', last, x, k);
      assert s == s' + [last];
    }
  }

  /** The ordering reorders and drops or duplicates nothing. */
  lemma {:induction false} SortPermutes(s: seq<Doc>)
    ensures multiset(SortDesc(s)) == multiset(s)
    decreases |s|
  {
    if s != [] {
      var s' := s[..|s| - 1];
      SortPermutes(s');
      InsertPermutes(SortDesc(s'), s[|s| - 1]);
      assert s == s' + [s[|s| - 1]];
    }
  }

  /** The ordering puts newer documents first; an absent stamp counts as 0. */
  lemma {:induction false} SortSorted(s: seq<Doc>)
    ensures SortedDesc(SortDesc(s))
    decreases |s|
  {
    if s != [] {
      SortSorted(s[..|s| - 1]);
      InsertSorted(SortDesc(s[..|s| - 1]), s[|s| - 1]);
    }
  }

  /** The ordering is stable: documents with equal keys keep their relative order. */
  lemma {:induction false} SortStable(s: seq<Doc>, k: int)
    ensures WithKey(SortDesc(s), k) == WithKey(s, k)
    decreases |s|
  {
    if s != [] {
      var s' := s[..|s| - 1];
      SortStable(s', k);
      InsertStable(SortDesc(s'), s[|s| - 1], k);
    }
  }

  /** A key occurs among the documents with that key exactly when some document has it. */
  lemma {:induction false} WithKeyEmpty(s: seq<Doc>, k: int)
    ensures WithKey(s, k) == [] <==> forall i :: 0 <= i < |s| ==> CreatedAt(s[i]) != k
    decreases |s|
  {
    if s != [] {
      WithKeyEmpty(s[..|s| - 1], k);
      assert forall i :: 0 <= i < |s| - 1 ==> s[..|s| - 1][i] == s[i];
    }
  }

  /** Two sorted arrangements with the same documents per key end on the same key. */
  lemma LastKeysAgree(t: seq<Doc>, u: seq<Doc>)
    requires t != [] && u != []
    requires SortedDesc(t) && SortedDesc(u)
    requires forall k :: WithKey(t, k) == WithKey(u, k)
    ensures CreatedAt(t[|t| - 1]) == CreatedAt(u[|u| - 1])
  {
    var m, n := CreatedAt(t[|t| - 1]), CreatedAt(u[|u| - 1]);
    assert WithKey(u, m) != [] by {
      WithKeyEmpty(t, m);
      assert WithKey(t, m) == WithKey(u, m);
    }
    assert WithKey(t, n) != [] by {
      WithKeyEmpty(u, n);
      assert WithKey(t, n) == WithKey(u, n);
    }
    WithKeyEmpty(u, m);
    WithKeyEmpty(t, n);
    var i :| 0 <= i < |u| && CreatedAt(u[i]) == m;
    var j :| 0 <= j < |t| && CreatedAt(t[j]) == n;
    assert n <= m by {
      if i < |u| - 1 {
        assert CreatedAt(u[|u| - 1]) <= CreatedAt(u[i]);
      }
    }
    assert m <= n by {
      if j < |t| - 1 {
        assert CreatedAt(t[|t| - 1]) <= CreatedAt(t[j]);
      }
    }
  }

  /**
   * Two arrangements that agree per key and end on documents of the same
   * key end on the same document, and agree per key without it.
   */
  lemma DropLastAgree(t': seq<Doc>, x: Doc, u': seq<Doc>, y: Doc)
    requires CreatedAt(x) == CreatedAt(y)
    requires forall k :: WithKey(t' + [x], k) == WithKey(u' + [y], k)
    ensures x == y
    ensures forall k :: WithKey(t', k) == WithKey(u', k)
  {
    var t, u := t' + [x], u' + [y];
    assert t[..|t| - 1] == t' && u[..|u| - 1] == u';
    var m := CreatedAt(x);
    assert x == y && WithKey(t', m) == WithKey(u', m) by {
      var wt, wu := WithKey(t', m) + [x], WithKey(u', m) + [y];
      assert WithKey(t, m) == wt;
      assert WithKey(u, m) == wu;
      assert wt == wu;
      assert |WithKey(t', m)| == |WithKey(u', m)|;
      assert x == wt[|wt| - 1] == wu[|wu| - 1] == y;
      assert WithKey(t', m) == wt[..|wt| - 1] == wu[..|wu| - 1] == WithKey(u', m);
    }
    forall k ensures WithKey(t', k) == WithKey(u', k) {
      if k != m {
        assert WithKey(t, k) == WithKey(t', k);
        assert WithKey(u, k) == WithKey(u', k);
      }
    }
  }

  /**
   * Ordering by key, newest first, and keeping the fetch order among equal
   * keys determine the result: SortDesc is the only such arrangement.
   */
  lemma {:induction false} SortedStableUnique(t: seq<Doc>, u: seq<Doc>)
    requires SortedDesc(t) && SortedDesc(u)
    requires forall k :: WithKey(t, k) == WithKey(u, k)
    ensures t == u
    decreases |t| + |u|
  {
    if t == [] || u == [] {
      if t != [] {
        WithKeyEmpty(t, CreatedAt(t[0]));
        WithKeyEmpty(u, CreatedAt(t[0]));
      }
      if u != [] {
        WithKeyEmpty(u, CreatedAt(u[0]));
        WithKeyEmpty(t, CreatedAt(u[0]));
      }
    } else {
      var t', u' := t[..|t| - 1], u[..|u| - 1];
      LastKeysAgree(t, u);
      assert t == t' + [t[|t| - 1]] && u == u' + [u[|u| - 1]];
      DropLastAgree(t', t[|t| - 1], u', u[|u| - 1]);
      assert SortedDesc(t') && SortedDesc(u') by {
        assert forall i :: 0 <= i < |t'| ==> t'[i] == t[i];
        assert forall i :: 0 <= i < |u'| ==> u'[i] == u[i];
      }
      SortedStableUnique(t', u');
    }
  }

  /**
   * Bookings stamped 100, 300 and 200, fetched in that order, are listed
   * as 300, 200, 100.
   */
  lemma ListingOrderExample(a: Doc, b: Doc, c: Doc)
    requires CreatedAt(a) == 100 && CreatedAt(b) == 300 && CreatedAt(c) == 200
    ensures SortDesc([a, b, c]) == [b, c, a]
  {
    assert [a, b, c][..2] == [a, b] && [a, b][..1] == [a];
    assert SortDesc([a]) == [a];
    assert SortDesc([a, b]) == Insert([a], b) == [b, a] by {
      assert [a][..0] == [];
    }
    assert Insert([b, a], c) == Insert([b], c) + [a];
    assert [b, a][..1] == [b];
  }

  /** Where `Insert` puts `x`: after the last element whose key is not smaller. */
  lemma {:induction false} InsertPosition(s: seq<Doc>, j: nat, x: Doc)
    requires j <= |s|
    requires j == 0 || CreatedAt(x) <= CreatedAt(s[j - 1])
    requires forall k :: j <= k < |s| ==> CreatedAt(s[k]) < CreatedAt(x)
    ensures Insert(s, x) == s[..j] + [x] + s[j..]
    decreases |s|
  {
    if j < |s| {
      var s', last := s[..|s| - 1], s[|s| - 1];
      InsertPosition(s', j, x);
      assert s'[..j] == s[..j];
      assert s'[j..] + [last] == s[j..];
    } else {
      assert s[..j] == s;
    }
  }

  /**
   * One step of insertion sort: the element at `i` moves left past every
   * element of the sorted prefix with a smaller key.
   */
  method InsertAt(a: array<Doc>, i: nat)
    requires i < a.Length
    modifies a
    ensures a[..i + 1] == Insert(old(a[..i]), old(a[i]))
    ensures a[i + 1..] == old(a[i + 1..])
  {
    ghost var sorted := a[..i];
    var x := a[i];
    var j := i;
    while j > 0 && CreatedAt(x) > CreatedAt(a[j - 1])
      invariant 0 <= j <= i
      invariant forall k :: 0 <= k < j ==> a[k] == sorted[k]
      invariant forall k :: j < k <= i ==> a[k] == sorted[k - 1]
      invariant a[i + 1..] == old(a[i + 1..])
      invariant forall k :: j <= k < i ==> CreatedAt(sorted[k]) < CreatedAt(x)
    {
      a[j] := a[j - 1];
      j := j - 1;
    }
    a[j] := x;
    InsertPosition(sorted, j, x);
    ghost var r := sorted[..j] + [x] + sorted[j..];
    forall k | 0 <= k <= i ensures a[..i + 1][k] == r[k] {
      if k < j {
        assert r[k] == sorted[k];
      } else if k > j {
        assert r[k] == sorted[k - 1];
      }
    }
    assert a[..i + 1] == r;
  }

  /** The final ordering of GET /bookings, done in place as an insertion sort. */
  method SortByCreatedAtDesc(a: array<Doc>)
    modifies a
    ensures a[..] == SortDesc(old(a[..]))
  {
    ghost var s0 := a[..];
    var i := 0;
    while i < a.Length
      invariant 0 <= i <= a.Length
      invariant a[..i] == SortDesc(s0[..i])
      invariant a[i..] == s0[i..]
    {
      InsertAt(a, i);
      assert s0[..i + 1][..i] == s0[..i];
      i := i + 1;
    }
    assert s0[..a.Length] == s0;
  }
}
