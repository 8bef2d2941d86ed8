/**
 The date-preserving cache codec as a tree transformation. A value is a tree of JSON data with dates
 at any depth; `Encode` is the tree `JSON.stringify` writes with the replacer, `Decode` is what
 `JSON.parse` builds with the reviver (children first, as sections 25.5.1 and 25.5.2 of ECMA-262
 order it). The text between the two, and the ISO form of a date, belong to the language: the
 printing `iso` and the parsing `parse` of a date are parameters.
*/
module Codec {

  /** The time values of section 21.4.1.1 of ECMA-262. */
  type TimeValue = ms: int | -8_640_000_000_000_000 <= ms <= 8_640_000_000_000_000

  /** A point in time, or the invalid date. */
  datatype Date = Time(ms: TimeValue) | Invalid

  datatype Js =
    | Null
    | Bool(b: bool)
    | Num(n: real)
    | Str(s: string)
    | DateObj(date: Date)
    | Arr(items: seq<Js>)
    | Obj(fields: map<string, Js>)

  const DATE_KEY := "__d"

  /** An object whose only key is `__d`, with a string value. */
  predicate IsMarker(v: Js) {
    v.Obj? && v.fields.Keys == {DATE_KEY} && v.fields[DATE_KEY].Str?
  }

  function Marker(text: string): Js {
    Obj(map[DATE_KEY := Str(text)])
  }

  // ---------------------------------------------------------------- writing

  /** `Date.prototype.toJSON`, applied before the replacer sees the value. */
  function ToJson(v: Js, iso: TimeValue -> string): Js {
    match v
    case DateObj(Time(ms)) => Str(iso(ms))
    case DateObj(Invalid) => Null
    case _ => v
  }

  /** The replacer looks at the holder's original, because `value` is past `toJSON` already. */
  function DateReplacer(original: Js, value: Js, iso: TimeValue -> string): Js {
    match original
    case DateObj(Invalid) => Null
    case DateObj(Time(ms)) => Marker(iso(ms))
    case _ => value
  }

  function Encode(v: Js, iso: TimeValue -> string): (j: Js)
    ensures NoDates(j)
  {
    if v.DateObj? then DateReplacer(v, ToJson(v, iso), iso)
    else if v.Arr? then Arr(seq(|v.items|, i requires 0 <= i < |v.items| => Encode(v.items[i], iso)))
    else if v.Obj? then Obj(map k | k in v.fields :: Encode(v.fields[k], iso))
    else v
  }

  // ---------------------------------------------------------------- reading

  function DateReviver(value: Js, parse: string -> Date): Js {
    if value.Obj? && DATE_KEY in value.fields && value.fields[DATE_KEY].Str? && |value.fields| == 1
    then DateObj(parse(value.fields[DATE_KEY].s))
    else value
  }

  function Decode(j: Js, parse: string -> Date): Js {
    var inner :=
      if j.Arr? then Arr(seq(|j.items|, i requires 0 <= i < |j.items| => Decode(j.items[i], parse)))
      else if j.Obj? then Obj(map k | k in j.fields :: Decode(j.fields[k], parse))
      else j;
    DateReviver(inner, parse)
  }

  // ---------------------------------------------------------------- what survives

  predicate NoDates(v: Js) {
    && !v.DateObj?
    && (v.Arr? ==> forall i :: 0 <= i < |v.items| ==> NoDates(v.items[i]))
    && (v.Obj? ==> forall k :: k in v.fields ==> NoDates(v.fields[k]))
  }

  /** No invalid date and no marker-shaped object, at any depth. */
  predicate Preserved(v: Js) {
    && v != DateObj(Invalid)
    && !IsMarker(v)
    && (v.Arr? ==> forall i :: 0 <= i < |v.items| ==> Preserved(v.items[i]))
    && (v.Obj? ==> forall k :: k in v.fields ==> Preserved(v.fields[k]))
  }

  /** Printing a time and parsing the text gives the time back. */
  ghost predicate Inverse(iso: TimeValue -> string, parse: string -> Date) {
    forall ms: TimeValue :: parse(iso(ms)) == Time(ms)
  }

  lemma ReviverFires(v: Js, parse: string -> Date)
    ensures DateReviver(v, parse) == if IsMarker(v) then DateObj(parse(v.fields[DATE_KEY].s)) else v
  {
    if v.Obj? && DATE_KEY in v.fields {
      var others := v.fields.Keys - {DATE_KEY};
      assert |v.fields| == |v.fields.Keys| == |others| + 1;
      assert others == {} <==> v.fields.Keys == {DATE_KEY};
    }
  }

  /** What is written: each date as an object with its ISO text under `__d`, an invalid one as null, all else in its place. */
  lemma EncodedIs(v: Js, iso: TimeValue -> string)
    ensures
      var j := Encode(v, iso);
      match v
      case DateObj(Time(ms)) => j == Obj(map["__d" := Str(iso(ms))])
      case DateObj(Invalid) => j == Null
      case Arr(items) =>
        j.Arr? && |j.items| == |items| && forall i | 0 <= i < |items| :: j.items[i] == Encode(items[i], iso)
      case Obj(fields) =>
        j.Obj? && j.fields.Keys == fields.Keys && forall k | k in fields :: j.fields[k] == Encode(fields[k], iso)
      case _ => j == v
  {
  }

  /** What is read: an object with a text under `__d` and nothing else as the date of that text, all else in its place. */
  lemma DecodedIs(j: Js, parse: string -> Date)
    ensures
      var v := Decode(j, parse);
      match j
      case Arr(items) =>
        v.Arr? && |v.items| == |items| && forall i | 0 <= i < |items| :: v.items[i] == Decode(items[i], parse)
      case Obj(fields) =>
        var inner := map k | k in fields :: Decode(fields[k], parse);
        && (forall text | inner == map["__d" := Str(text)] :: v == DateObj(parse(text)))
        && ((forall text :: inner != map["__d" := Str(text)]) ==> v == Obj(inner))
      case _ => v == j
  {
    if j.Obj? {
      var inner := map k | k in j.fields :: Decode(j.fields[k], parse);
      ReviverFires(Obj(inner), parse);
      if IsMarker(Obj(inner)) {
        assert inner == map["__d" := Str(inner["__d"].s)];
      }
    }
  }

  lemma DateRoundTrip(d: Date, iso: TimeValue -> string, parse: string -> Date)
    requires Inverse(iso, parse)
    ensures Decode(Encode(DateObj(d), iso), parse) == if d.Time? then DateObj(d) else Null
  {
    if d.Time? {
      var j := Marker(iso(d.ms));
      var inner := map k | k in j.fields :: Decode(j.fields[k], parse);
      assert inner == j.fields by {
        assert Decode(Str(iso(d.ms)), parse) == Str(iso(d.ms));
      }
      ReviverFires(j, parse);
      assert parse(iso(d.ms)) == d;
    }
  }

  /** If each element is given back exactly when it is preserved, so is the array. */
  lemma ArrayRoundTrip(items: seq<Js>, back: seq<Js>)
    requires |back| == |items|
    requires forall i :: 0 <= i < |items| ==> (back[i] == items[i] <==> Preserved(items[i]))
    ensures Arr(back) == Arr(items) <==> Preserved(Arr(items))
  {
  }

  /** If each field is given back exactly when it is preserved, so is the object. */
  lemma ObjectRoundTrip(fields: map<string, Js>, inner: map<string, Js>, parse: string -> Date)
    requires inner.Keys == fields.Keys
    requires forall k :: k in fields ==> (inner[k] == fields[k] <==> Preserved(fields[k]))
    ensures DateReviver(Obj(inner), parse) == Obj(fields) <==> Preserved(Obj(fields))
  {
    ReviverFires(Obj(inner), parse);
    assert inner == fields <==> forall k :: k in fields ==> inner[k] == fields[k];
  }

  /** `decode(encode(v))` is `v` exactly when nothing in `v` is an invalid date or looks like a marker. */
  lemma {:induction false} RoundTrip(v: Js, iso: TimeValue -> string, parse: string -> Date)
    requires Inverse(iso, parse)
    ensures Decode(Encode(v, iso), parse) == v <==> Preserved(v)
  {
    var j := Encode(v, iso);
    match v
    case DateObj(d) =>
      DateRoundTrip(d, iso, parse);
    case Arr(items) =>
      forall i | 0 <= i < |items| ensures Decode(j.items[i], parse) == items[i] <==> Preserved(items[i]) {
        RoundTrip(items[i], iso, parse);
      }
      ArrayRoundTrip(items, seq(|j.items|, i requires 0 <= i < |j.items| => Decode(j.items[i], parse)));
    case Obj(fields) =>
      forall k | k in fields ensures Decode(j.fields[k], parse) == fields[k] <==> Preserved(fields[k]) {
        RoundTrip(fields[k], iso, parse);
      }
      ObjectRoundTrip(fields, map k | k in j.fields :: Decode(j.fields[k], parse), parse);
    case _ =>
  }

  /** Plain data, such as an entry written before the marker existed, reads as itself unless it holds a marker. */
  lemma {:induction false} PlainDataReadsAsItself(j: Js, parse: string -> Date)
    requires NoDates(j)
    ensures Decode(j, parse) == j <==> Preserved(j)
  {
    match j
    case Arr(items) =>
      forall i | 0 <= i < |items| ensures Decode(items[i], parse) == items[i] <==> Preserved(items[i]) {
        PlainDataReadsAsItself(items[i], parse);
      }
      ArrayRoundTrip(items, seq(|items|, i requires 0 <= i < |items| => Decode(items[i], parse)));
    case Obj(fields) =>
      forall k | k in fields ensures Decode(fields[k], parse) == fields[k] <==> Preserved(fields[k]) {
        PlainDataReadsAsItself(fields[k], parse);
      }
      ObjectRoundTrip(fields, map k | k in fields :: Decode(fields[k], parse), parse);
    case _ =>
  }
}
