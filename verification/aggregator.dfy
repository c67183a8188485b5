/** The `/esp32/events` handler: read both collections, map every record, put
    the recurring descriptors before the dated ones, sort by `time`, and answer
    with the list or with the message of the first read that failed. */
module Aggregator {
  import opened Wrappers
  import opened JsValues
  import opened LexOrder
  import opened Events
  import opened TimeSort

  /** The outcome of reading one collection: its documents, or the failure
      message. */
  type Read = Result<seq<Doc>, string>

  /** The handler's answer: the event list (HTTP 200) or `{ error: message }`
      (HTTP 500). */
  datatype Response = Ok(events: seq<Descriptor>) | Error(message: string)

  /** When both reads succeed, every record they return has a string `time`.
      Nothing is asked of a read once either read has failed: the answer is
      then the error, and no record is compared. */
  predicate TimedWhenRead(normalRead: Read, specialRead: Read) {
    normalRead.Success? && specialRead.Success? ==>
      AllTimed(normalRead.value) && AllTimed(specialRead.value)
  }

  /** The unsorted list: recurring descriptors, then dated ones. */
  function Merged(normals: seq<Doc>, specials: seq<Doc>): (es: seq<Descriptor>)
    requires AllTimed(normals) && AllTimed(specials)
    ensures |es| == |normals| + |specials|
    ensures forall i | 0 <= i < |normals| :: es[i] == MapNormal(normals[i])
    ensures forall i | 0 <= i < |specials| :: es[|normals| + i] == MapSpecial(specials[i])
  {
    MapNormals(normals) + MapSpecials(specials)
  }

  /** The handler as a function of the two reads. */
  function Aggregate(normalRead: Read, specialRead: Read): (r: Response)
    requires TimedWhenRead(normalRead, specialRead)
    ensures r.Error? <==> normalRead.Failure? || specialRead.Failure?
    ensures normalRead.Failure? ==> r == Error(normalRead.error)
    ensures normalRead.Success? && specialRead.Failure? ==> r == Error(specialRead.error)
    ensures normalRead.Success? && specialRead.Success? ==>
      && r.Ok?
      && |r.events| == |normalRead.value| + |specialRead.value|
      && multiset(r.events) == multiset(Merged(normalRead.value, specialRead.value))
      && Sorted(r.events)
  {
    match normalRead
    case Failure(m) => Error(m)
    case Success(normals) =>
      match specialRead
      case Failure(m) => Error(m)
      case Success(specials) => Ok(Sort(Merged(normals, specials)))
  }

  /** All-or-nothing: once the recurring read fails the answer is that
      failure, whatever the dated collection would have returned. */
  lemma NormalFailureIgnoresSpecialRead(message: string, specialRead: Read, specialRead': Read)
    ensures Aggregate(Failure(message), specialRead) == Aggregate(Failure(message), specialRead')
    ensures Aggregate(Failure(message), specialRead) == Error(message)
  {
  }

  /** All-or-nothing: when the dated read fails, the answer is that failure,
      whatever the recurring snapshot held, records without a `time`
      included. */
  lemma SpecialFailureDiscardsNormals(normals: seq<Doc>, normals': seq<Doc>, message: string)
    ensures Aggregate(Success(normals), Failure(message)) == Error(message)
    ensures Aggregate(Success(normals), Failure(message))
         == Aggregate(Success(normals'), Failure(message))
  {
  }

  /** Nothing is filtered: every record of either collection is in the
      answer. */
  lemma RecordsAppearInAnswer(normals: seq<Doc>, specials: seq<Doc>)
    requires AllTimed(normals) && AllTimed(specials)
    ensures forall k | 0 <= k < |normals| ::
      MapNormal(normals[k]) in Aggregate(Success(normals), Success(specials)).events
    ensures forall k | 0 <= k < |specials| ::
      MapSpecial(specials[k]) in Aggregate(Success(normals), Success(specials)).events
  {
    var out := Aggregate(Success(normals), Success(specials)).events;
    var merged := Merged(normals, specials);
    assert multiset(out) == multiset(merged);
    forall k | 0 <= k < |normals|
      ensures MapNormal(normals[k]) in out
    {
      assert merged[k] in multiset(merged);
    }
    forall k | 0 <= k < |specials|
      ensures MapSpecial(specials[k]) in out
    {
      assert merged[|normals| + k] in multiset(merged);
    }
  }

  /** Nothing is invented, and the `type` tag tells the provenance: a
      `normal` entry comes from a recurring record and a `special` entry from
      a dated one. */
  lemma EntriesComeFromTheirCollection(normals: seq<Doc>, specials: seq<Doc>, e: Descriptor)
    requires AllTimed(normals) && AllTimed(specials)
    requires e in Aggregate(Success(normals), Success(specials)).events
    ensures e.TypeTag() == "normal" ==> exists k | 0 <= k < |normals| :: e == MapNormal(normals[k])
    ensures e.TypeTag() == "special" ==> exists k | 0 <= k < |specials| :: e == MapSpecial(specials[k])
  {
    var merged := Merged(normals, specials);
    assert e in multiset(Aggregate(Success(normals), Success(specials)).events);
    assert e in multiset(merged);
    MergedEntriesOrigin(normals, specials);
  }

  /** Every entry of the unsorted list is the descriptor of a record of the
      collection its variant names. */
  lemma MergedEntriesOrigin(normals: seq<Doc>, specials: seq<Doc>)
    requires AllTimed(normals) && AllTimed(specials)
    ensures forall e: Descriptor | e in Merged(normals, specials) ::
      && (e.Normal? ==> exists k | 0 <= k < |normals| :: e == MapNormal(normals[k]))
      && (e.Special? ==> exists k | 0 <= k < |specials| :: e == MapSpecial(specials[k]))
  {
    var ns, ss := MapNormals(normals), MapSpecials(specials);
    forall e: Descriptor | e in ns + ss
      ensures e.Normal? ==> exists k | 0 <= k < |normals| :: e == MapNormal(normals[k])
      ensures e.Special? ==> exists k | 0 <= k < |specials| :: e == MapSpecial(specials[k])
    {
      if e in ns {
        var k :| 0 <= k < |ns| && ns[k] == e;
        assert e == MapNormal(normals[k]);
      } else {
        assert e in ss;
        var k :| 0 <= k < |ss| && ss[k] == e;
        assert e == MapSpecial(specials[k]);
      }
    }
  }

  /** Among events with the same time, the recurring ones come first, in
      snapshot order, then the dated ones, in snapshot order. */
  lemma EqualTimesKeepStoreOrder(normals: seq<Doc>, specials: seq<Doc>, t: string)
    requires AllTimed(normals) && AllTimed(specials)
    ensures WithTime(Aggregate(Success(normals), Success(specials)).events, t)
         == WithTime(MapNormals(normals), t) + WithTime(MapSpecials(specials), t)
  {
    SortStable(Merged(normals, specials), t);
    WithTimeConcat(MapNormals(normals), MapSpecials(specials), t);
  }

  /** The answer is the only list that is ascending by time and keeps that
      order among equal times: any such list is what the handler returns. */
  lemma AnswerIsTheStableOrder(normals: seq<Doc>, specials: seq<Doc>, r: seq<Descriptor>)
    requires AllTimed(normals) && AllTimed(specials)
    requires Sorted(r)
    requires forall t :: WithTime(r, t) == WithTime(MapNormals(normals), t) + WithTime(MapSpecials(specials), t)
    ensures Aggregate(Success(normals), Success(specials)) == Ok(r)
  {
    forall t
      ensures WithTime(r, t) == WithTime(Merged(normals, specials), t)
    {
      WithTimeConcat(MapNormals(normals), MapSpecials(specials), t);
    }
    SortCharacterized(Merged(normals, specials), r);
  }

  /** Two empty collections give an empty list, not an error. */
  lemma EmptyStore()
    ensures Aggregate(Success([]), Success([])) == Ok([])
  {
  }

  const MorningNormals: seq<Doc> :=
    [Doc("a", map["time" := Str("07:00"), "tone" := Str("chime")])]
  const MorningSpecials: seq<Doc> :=
    [Doc("b", map["time" := Str("06:30"), "tone" := Str("alarm"), "date" := Str("2024-01-01")])]
  const MorningNormal: Descriptor :=
    Normal("a", "07:00", Str("chime"), Num(0), Str("No Title"), Arr([]), Bool(true))
  const MorningSpecial: Descriptor :=
    Special("b", "06:30", Str("alarm"), Num(0), Str("2024-01-01"), Str("No Description"))

  /** One recurring event at 07:00 and one dated event at 06:30: the dated one
      comes first and both carry their defaults. */
  lemma MorningScenario()
    ensures AllTimed(MorningNormals) && AllTimed(MorningSpecials)
    ensures Aggregate(Success(MorningNormals), Success(MorningSpecials))
         == Ok([MorningSpecial, MorningNormal])
  {
    MorningMerged();
    MorningSorted();
  }

  lemma MorningMerged()
    ensures AllTimed(MorningNormals) && AllTimed(MorningSpecials)
    ensures Merged(MorningNormals, MorningSpecials) == [MorningNormal, MorningSpecial]
  {
    assert MapNormal(MorningNormals[0]) == MorningNormal;
    assert MapSpecial(MorningSpecials[0]) == MorningSpecial;
  }

  lemma MorningSorted()
    ensures Sort([MorningNormal, MorningSpecial]) == [MorningSpecial, MorningNormal]
  {
    var n, s := MorningNormal, MorningSpecial;
    assert "07:00"[1..] == "7:00" && "06:30"[1..] == "6:30";
    assert !LexLe(n.time, s.time);
    assert Sort([s]) == [s];
    assert [n, s][1..] == [s];
    assert Sort([n, s]) == Insert(n, [s]);
    InsertSkip(n, [s]);
  }

  /** The handler as written: two reads in sequence, each snapshot pushed onto
      one list record by record, then one sort. Also returns the collections it
      read, in order. The recurring snapshot is mapped once the dated read has
      also succeeded rather than between the two reads: mapping is pure, so
      the answer is the same, and a failed dated read does not need the
      recurring records to be well formed. */
  method HandleEvents(normalRead: Read, specialRead: Read) returns (resp: Response, consulted: seq<string>)
    requires TimedWhenRead(normalRead, specialRead)
    ensures resp == Aggregate(normalRead, specialRead)
    ensures consulted == if normalRead.Failure? then ["normalEvents"] else ["normalEvents", "specialEvents"]
  {
    consulted := ["normalEvents"];
    if normalRead.Failure? {
      return Error(normalRead.error), consulted;
    }
    consulted := consulted + ["specialEvents"];
    if specialRead.Failure? {
      return Error(specialRead.error), consulted;
    }
    var normals, specials := normalRead.value, specialRead.value;

    var events: seq<Descriptor> := [];
    var i := 0;
    assert normals[..0] == [];
    while i < |normals|
      invariant 0 <= i <= |normals|
      invariant AllTimed(normals[..i]) && events == MapNormals(normals[..i])
    {
      MapNormalsSnoc(normals, i);
      events := events + [MapNormal(normals[i])];
      i := i + 1;
    }
    assert normals[..i] == normals;

    var j := 0;
    assert specials[..0] == [];
    while j < |specials|
      invariant 0 <= j <= |specials|
      invariant AllTimed(specials[..j])
      invariant events == MapNormals(normals) + MapSpecials(specials[..j])
    {
      MapSpecialsSnoc(specials, j);
      ConcatAssoc(MapNormals(normals), MapSpecials(specials[..j]), [MapSpecial(specials[j])]);
      events := events + [MapSpecial(specials[j])];
      j := j + 1;
    }
    assert specials[..j] == specials;

    var sorted := SortByTime(events);
    resp := Ok(sorted);
  }
}
