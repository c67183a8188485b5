/** Stored documents and the descriptors the `/esp32/events` handler builds from
    them: one mapping for recurring ("normal") records, one for dated
    ("special") records. */
module Events {
  import opened JsValues

  /** A document as read from a collection: its store-assigned id and its
      field map. */
  datatype Doc = Doc(id: string, data: map<string, Value>)

  /** `doc.data().key`: a missing field reads as undefined. */
  function Field(d: Doc, key: string): Value {
    if key in d.data then d.data[key] else Undefined
  }

  /** The record has a string `time`, the sort key. Without one the comparator
      would throw or compare garbage; the model keeps such records out. */
  predicate HasTime(d: Doc) {
    Field(d, "time").Str?
  }

  predicate AllTimed(docs: seq<Doc>) {
    forall i | 0 <= i < |docs| :: HasTime(docs[i])
  }

  /** The uniform event shape sent to the device. The variant is the `type`
      tag; `delay` is present in both. */
  datatype Descriptor =
    | Normal(id: string, time: string, tone: Value, delay: Value,
             title: Value, days: Value, active: Value)
    | Special(id: string, time: string, tone: Value, delay: Value,
              date: Value, description: Value)
  {
    /** The `type` field of the response object. */
    function TypeTag(): (t: string)
      ensures t == "normal" <==> Normal?
      ensures t == "special" <==> Special?
    {
      if Normal? then "normal" else "special"
    }
  }

  const NoTitle: Value := Str("No Title")
  const NoDescription: Value := Str("No Description")

  /** One recurring record to its descriptor. `delay`, `title` and `days` fall
      back on their defaults whenever the stored value is falsy; `active` only
      when it is null or absent. */
  function MapNormal(d: Doc): (e: Descriptor)
    requires HasTime(d)
    ensures e.Normal? && e.TypeTag() == "normal"
    ensures e.id == d.id && Str(e.time) == Field(d, "time") && e.tone == Field(d, "tone")
    ensures Truthy(Field(d, "delay")) ==> e.delay == Field(d, "delay")
    ensures !Truthy(Field(d, "delay")) ==> e.delay == Num(0)
    ensures Truthy(Field(d, "title")) ==> e.title == Field(d, "title")
    ensures !Truthy(Field(d, "title")) ==> e.title == NoTitle
    ensures Truthy(Field(d, "days")) ==> e.days == Field(d, "days")
    ensures !Truthy(Field(d, "days")) ==> e.days == Arr([])
    ensures !Nullish(Field(d, "active")) ==> e.active == Field(d, "active")
    ensures Nullish(Field(d, "active")) ==> e.active == Bool(true)
  {
    Normal(
      d.id,
      Field(d, "time").s,
      Field(d, "tone"),
      OrElse(Field(d, "delay"), Num(0)),
      OrElse(Field(d, "title"), NoTitle),
      OrElse(Field(d, "days"), Arr([])),
      NullishOr(Field(d, "active"), Bool(true)))
  }

  /** One dated record to its descriptor: `delay` is 0 whatever is stored,
      `date` is copied even when absent, `description` falls back when falsy. */
  function MapSpecial(d: Doc): (e: Descriptor)
    requires HasTime(d)
    ensures e.Special? && e.TypeTag() == "special"
    ensures e.id == d.id && Str(e.time) == Field(d, "time") && e.tone == Field(d, "tone")
    ensures e.delay == Num(0)
    ensures e.date == Field(d, "date")
    ensures Truthy(Field(d, "description")) ==> e.description == Field(d, "description")
    ensures !Truthy(Field(d, "description")) ==> e.description == NoDescription
  {
    Special(
      d.id,
      Field(d, "time").s,
      Field(d, "tone"),
      Num(0),
      Field(d, "date"),
      OrElse(Field(d, "description"), NoDescription))
  }

  /** Every recurring record of a snapshot, in snapshot order. */
  function MapNormals(docs: seq<Doc>): (es: seq<Descriptor>)
    requires AllTimed(docs)
    ensures |es| == |docs|
    ensures forall i | 0 <= i < |docs| :: es[i] == MapNormal(docs[i])
  {
    seq(|docs|, i requires 0 <= i < |docs| => MapNormal(docs[i]))
  }

  /** Every dated record of a snapshot, in snapshot order. */
  function MapSpecials(docs: seq<Doc>): (es: seq<Descriptor>)
    requires AllTimed(docs)
    ensures |es| == |docs|
    ensures forall i | 0 <= i < |docs| :: es[i] == MapSpecial(docs[i])
  {
    seq(|docs|, i requires 0 <= i < |docs| => MapSpecial(docs[i]))
  }

  /** Mapping a snapshot one more record at a time: the prefix up to `i + 1`
      maps to the prefix up to `i` followed by record `i`. */
  lemma MapNormalsSnoc(docs: seq<Doc>, i: nat)
    requires AllTimed(docs) && i < |docs|
    ensures AllTimed(docs[..i]) && AllTimed(docs[..i + 1])
    ensures MapNormals(docs[..i + 1]) == MapNormals(docs[..i]) + [MapNormal(docs[i])]
  {
    assert forall k | 0 <= k < i + 1 :: docs[..i + 1][k] == docs[k];
  }

  lemma MapSpecialsSnoc(docs: seq<Doc>, i: nat)
    requires AllTimed(docs) && i < |docs|
    ensures AllTimed(docs[..i]) && AllTimed(docs[..i + 1])
    ensures MapSpecials(docs[..i + 1]) == MapSpecials(docs[..i]) + [MapSpecial(docs[i])]
  {
    assert forall k | 0 <= k < i + 1 :: docs[..i + 1][k] == docs[k];
  }

  /** A recurring record holding none of the optional fields gets every
      default. */
  lemma NormalDefaults(d: Doc)
    requires HasTime(d)
    requires "delay" !in d.data && "title" !in d.data
    requires "days" !in d.data && "active" !in d.data
    ensures MapNormal(d).delay == Num(0)
    ensures MapNormal(d).title == Str("No Title")
    ensures MapNormal(d).days == Arr([])
    ensures MapNormal(d).active == Bool(true)
  {
  }

  /** `active: false` survives while an empty `title` and a `false` `delay`
      are replaced: nullish versus falsy defaulting. */
  lemma FalsyVersusNullish(d: Doc)
    requires HasTime(d)
    requires Field(d, "active") == Bool(false)
    requires Field(d, "title") == Str("")
    requires Field(d, "delay") == Bool(false)
    ensures MapNormal(d).active == Bool(false)
    ensures MapNormal(d).title == Str("No Title")
    ensures MapNormal(d).delay == Num(0)
  {
  }

  /** A dated record's stored `delay`, whatever it holds, does not reach its
      descriptor. */
  lemma SpecialIgnoresStoredDelay(d: Doc, v: Value)
    requires HasTime(d)
    ensures HasTime(Doc(d.id, d.data["delay" := v]))
    ensures MapSpecial(Doc(d.id, d.data["delay" := v])) == MapSpecial(d)
  {
    var d' := Doc(d.id, d.data["delay" := v]);
    assert Field(d', "time") == Field(d, "time");
    assert Field(d', "tone") == Field(d, "tone");
    assert Field(d', "date") == Field(d, "date");
    assert Field(d', "description") == Field(d, "description");
  }

  /** The descriptor written back as a stored document: the response object's
      fields. */
  function Stored(e: Descriptor): (d: Doc)
    ensures d.id == e.id && Field(d, "time") == Str(e.time) && Field(d, "tone") == e.tone
    ensures Field(d, "delay") == e.delay
  {
    match e
    case Normal(id, time, tone, delay, title, days, active) =>
      Doc(id, map["type" := Str("normal"), "time" := Str(time), "tone" := tone,
                  "delay" := delay, "title" := title, "days" := days, "active" := active])
    case Special(id, time, tone, delay, date, description) =>
      Doc(id, map["type" := Str("special"), "time" := Str(time), "tone" := tone,
                  "delay" := delay, "date" := date, "description" := description])
  }

  /** Normalising is idempotent: a recurring descriptor stored back and mapped
      again is unchanged, because every default it received is itself kept by
      the mapping. */
  lemma RenormalizeNormal(d: Doc)
    requires HasTime(d)
    ensures HasTime(Stored(MapNormal(d)))
    ensures MapNormal(Stored(MapNormal(d))) == MapNormal(d)
  {
  }

  /** The same for dated descriptors. */
  lemma RenormalizeSpecial(d: Doc)
    requires HasTime(d)
    ensures HasTime(Stored(MapSpecial(d)))
    ensures MapSpecial(Stored(MapSpecial(d))) == MapSpecial(d)
  {
  }
}
