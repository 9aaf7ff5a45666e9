/**
 The date-aware encoding of the `superJsonSerializer`: dates become one-field records under a
 marker key, and record keys that could be mistaken for the marker or for an escaped key are
 escaped.  Decoding an encoded tree gives the tree back, whatever keys its records use.
 */
module DateCodec {

  const DATE_MARKER := "__safecache_date"
  const ESCAPE_PREFIX := "__safecache_esc_"

  // A valid date is represented by its ISO text.
  datatype Value =
    | Null
    | Bool(b: bool)
    | Number(n: int)
    | Text(s: string)
    | Date(iso: string)
    | List(items: seq<Value>)
    | Record(fields: seq<Field>)

  datatype Field = Field(key: string, value: Value)

  predicate StartsWith(s: string, prefix: string) {
    prefix <= s
  }

  predicate NeedsEscape(key: string) {
    key == DATE_MARKER || StartsWith(key, ESCAPE_PREFIX)
  }

  function EscapeKey(key: string): string {
    if NeedsEscape(key) then ESCAPE_PREFIX + key else key
  }

  function UnescapeKey(key: string): string {
    if StartsWith(key, ESCAPE_PREFIX) then key[|ESCAPE_PREFIX|..] else key
  }

  // `Object.fromEntries`: a repeated key overwrites the value already there.
  function SetField(fields: seq<Field>, field: Field): seq<Field> {
    if fields == [] then [field]
    else if fields[0].key == field.key then [field] + fields[1..]
    else [fields[0]] + SetField(fields[1..], field)
  }

  function FromEntries(entries: seq<Field>): seq<Field> {
    if entries == [] then []
    else SetField(FromEntries(entries[..|entries| - 1]), entries[|entries| - 1])
  }

  function EncodeDates(value: Value): Value
    decreases value, 0
  {
    match value
    case Date(iso) => Record([Field(DATE_MARKER, Text(iso))])
    case List(items) => List(EncodeItems(items))
    case Record(fields) => Record(FromEntries(EncodeEntries(fields)))
    case _ => value
  }

  function EncodeItems(items: seq<Value>): seq<Value>
    decreases items, 0
  {
    if items == [] then [] else [EncodeDates(items[0])] + EncodeItems(items[1..])
  }

  function EncodeEntries(fields: seq<Field>): seq<Field>
    decreases fields, 0
  {
    if fields == [] then []
    else [Field(EscapeKey(fields[0].key), EncodeDates(fields[0].value))] + EncodeEntries(fields[1..])
  }

  predicate IsEncodedDate(fields: seq<Field>) {
    |fields| == 1 && fields[0].key == DATE_MARKER && fields[0].value.Text?
  }

  function DecodeDates(value: Value): Value
    decreases value, 0
  {
    match value
    case List(items) => List(DecodeItems(items))
    case Record(fields) =>
      if IsEncodedDate(fields) then Date(fields[0].value.s) else Record(FromEntries(DecodeEntries(fields)))
    case Date(_) => Record([])
    case _ => value
  }

  function DecodeItems(items: seq<Value>): seq<Value>
    decreases items, 0
  {
    if items == [] then [] else [DecodeDates(items[0])] + DecodeItems(items[1..])
  }

  function DecodeEntries(fields: seq<Field>): seq<Field>
    decreases fields, 0
  {
    if fields == [] then []
    else [Field(UnescapeKey(fields[0].key), DecodeDates(fields[0].value))] + DecodeEntries(fields[1..])
  }

  // The trees that exist: no record has the same key twice.
  ghost predicate DistinctKeys(fields: seq<Field>) {
    forall i, j :: 0 <= i < j < |fields| ==> fields[i].key != fields[j].key
  }

  ghost predicate WellFormed(value: Value)
    decreases value
  {
    match value
    case List(items) => forall i :: 0 <= i < |items| ==> WellFormed(items[i])
    case Record(fields) => DistinctKeys(fields) && forall i :: 0 <= i < |fields| ==> WellFormed(fields[i].value)
    case _ => true
  }

  // ---- Keys ----

  lemma UnescapeEscape(key: string)
    ensures UnescapeKey(EscapeKey(key)) == key
    ensures EscapeKey(key) != DATE_MARKER
  {
    assert DATE_MARKER[12] != ESCAPE_PREFIX[12];
    if NeedsEscape(key) {
      assert (ESCAPE_PREFIX + key)[12] == ESCAPE_PREFIX[12];
      assert (ESCAPE_PREFIX + key)[|ESCAPE_PREFIX|..] == key;
    }
  }

  lemma EscapeInjective(a: string, b: string)
    ensures EscapeKey(a) == EscapeKey(b) <==> a == b
  {
    UnescapeEscape(a);
    UnescapeEscape(b);
  }

  // ---- Records ----

  lemma {:induction false} SetNewField(fields: seq<Field>, field: Field)
    requires forall i :: 0 <= i < |fields| ==> fields[i].key != field.key
    ensures SetField(fields, field) == fields + [field]
  {
    if fields == [] {
    } else {
      SetNewField(fields[1..], field);
      assert [fields[0]] + (fields[1..] + [field]) == fields + [field];
    }
  }

  // No fields merge when the keys are distinct.
  lemma {:induction false} FromDistinctEntries(entries: seq<Field>)
    requires DistinctKeys(entries)
    ensures FromEntries(entries) == entries
  {
    if entries == [] {
    } else {
      FromDistinctEntries(entries[..|entries| - 1]);
      SetNewField(entries[..|entries| - 1], entries[|entries| - 1]);
    }
  }

  lemma {:induction false} EncodedEntry(fields: seq<Field>, i: nat)
    requires i < |fields|
    ensures |EncodeEntries(fields)| == |fields|
    ensures EncodeEntries(fields)[i] == Field(EscapeKey(fields[i].key), EncodeDates(fields[i].value))
  {
    if i > 0 {
      EncodedEntry(fields[1..], i - 1);
    } else if |fields| > 1 {
      EncodedEntry(fields[1..], 0);
    }
  }

  lemma EncodedKeysStayDistinct(fields: seq<Field>)
    requires DistinctKeys(fields)
    ensures DistinctKeys(EncodeEntries(fields)) && |EncodeEntries(fields)| == |fields|
  {
    var encoded := EncodeEntries(fields);
    if fields != [] {
      EncodedEntry(fields, 0);
    }
    forall i, j | 0 <= i < j < |encoded| ensures encoded[i].key != encoded[j].key {
      EncodedEntry(fields, i);
      EncodedEntry(fields, j);
      EscapeInjective(fields[i].key, fields[j].key);
    }
  }

  // ---- The round trip ----

  lemma {:induction false} RoundTrip(value: Value)
    requires WellFormed(value)
    ensures DecodeDates(EncodeDates(value)) == value
    decreases value, 1
  {
    match value
    case List(items) => RoundTripItems(items);
    case Record(fields) =>
      EncodedKeysStayDistinct(fields);
      FromDistinctEntries(EncodeEntries(fields));
      RoundTripEntries(fields);
      FromDistinctEntries(fields);
      if |fields| == 1 {
        EncodedEntry(fields, 0);
        UnescapeEscape(fields[0].key);
      }
    case _ =>
  }

  lemma {:induction false} RoundTripItems(items: seq<Value>)
    requires forall i :: 0 <= i < |items| ==> WellFormed(items[i])
    ensures DecodeItems(EncodeItems(items)) == items
    decreases items, 0
  {
    if items == [] {
    } else {
      RoundTrip(items[0]);
      RoundTripItems(items[1..]);
      assert EncodeItems(items)[1..] == EncodeItems(items[1..]);
    }
  }

  lemma {:induction false} RoundTripEntries(fields: seq<Field>)
    requires forall i :: 0 <= i < |fields| ==> WellFormed(fields[i].value)
    ensures DecodeEntries(EncodeEntries(fields)) == fields
    decreases fields, 0
  {
    if fields == [] {
    } else {
      RoundTrip(fields[0].value);
      UnescapeEscape(fields[0].key);
      RoundTripEntries(fields[1..]);
      assert EncodeEntries(fields)[1..] == EncodeEntries(fields[1..]);
    }
  }

  // A tree without dates, marker keys and escaped keys.
  ghost predicate Plain(value: Value)
    decreases value
  {
    match value
    case Date(_) => false
    case List(items) => forall i :: 0 <= i < |items| ==> Plain(items[i])
    case Record(fields) =>
      && DistinctKeys(fields)
      && forall i :: 0 <= i < |fields| ==>
           && fields[i].key != "__safecache_date" && !("__safecache_esc_" <= fields[i].key)
           && Plain(fields[i].value)
    case _ => true
  }

  // Such a tree is encoded as it is.
  lemma {:induction false} PlainTreeUnchanged(value: Value)
    requires Plain(value)
    ensures EncodeDates(value) == value
    decreases value, 1
  {
    match value
    case List(items) => PlainItemsUnchanged(items);
    case Record(fields) =>
      PlainEntriesUnchanged(fields);
      FromDistinctEntries(fields);
    case _ =>
  }

  lemma {:induction false} PlainItemsUnchanged(items: seq<Value>)
    requires forall i :: 0 <= i < |items| ==> Plain(items[i])
    ensures EncodeItems(items) == items
    decreases items, 0
  {
    if items != [] {
      PlainTreeUnchanged(items[0]);
      PlainItemsUnchanged(items[1..]);
    }
  }

  lemma {:induction false} PlainEntriesUnchanged(fields: seq<Field>)
    requires forall i :: 0 <= i < |fields| ==>
               && fields[i].key != "__safecache_date" && !("__safecache_esc_" <= fields[i].key)
               && Plain(fields[i].value)
    ensures EncodeEntries(fields) == fields
    decreases fields, 0
  {
    if fields != [] {
      PlainTreeUnchanged(fields[0].value);
      PlainEntriesUnchanged(fields[1..]);
    }
  }

  // Only a date encodes to something that decodes to a date.
  lemma OnlyDatesLookLikeDates(value: Value)
    requires WellFormed(value)
    ensures value.Date? ==> EncodeDates(value) == Record([Field("__safecache_date", Text(value.iso))])
    ensures (EncodeDates(value).Record? && IsEncodedDate(EncodeDates(value).fields)) <==> value.Date?
  {
    RoundTrip(value);
  }

  lemma EncodeInjective(a: Value, b: Value)
    requires WellFormed(a) && WellFormed(b)
    ensures EncodeDates(a) == EncodeDates(b) <==> a == b
  {
    RoundTrip(a);
    RoundTrip(b);
  }
}
