/** types/json_to_msgp.go: JSON trees as MessagePack, and a reader for what is written. */
module JsonToMsgpack {
  import opened Options
  import opened Msgpack

  /** A double, by its eight bytes. */
  type Double = bits: seq<Byte> | |bits| == 8 witness [0, 0, 0, 0, 0, 0, 0, 0]

  /** Objects keep the order of their fields, and repeated keys. */
  datatype Json =
    | Null
    | Bool(b: bool)
    | Number(d: Double)
    | String(s: seq<Byte>)
    | Array(items: seq<Json>)
    | Object(fields: seq<(seq<Byte>, Json)>)

  /** The conversion of lengths to the 32 bits of a header. */
  function Truncated(n: nat): Size {
    n % SIZE_LIMIT
  }

  /** The form of the header goes by the full length; only its field is truncated. */
  function StringHeader(n: nat): seq<Byte> {
    if n < SIZE_LIMIT then Header(StrFormat, n) else LongHeader(StrFormat, Truncated(n))
  }

  function EncodedString(s: seq<Byte>): seq<Byte> {
    StringHeader(|s|) + s
  }

  /** The bytes of a JSON tree. */
  function Encode(v: Json): (bytes: seq<Byte>)
    ensures bytes != []
    decreases v, 0
  {
    match v
    case Null => [0xc0]
    case Bool(b) => [if b then 0xc3 else 0xc2]
    case Number(d) => [0xcb] + d
    case String(s) => EncodedString(s)
    case Array(items) => Header(ArrayFormat, Truncated(|items|)) + EncodeItems(v, |items|)
    case Object(fields) => Header(MapFormat, Truncated(|fields|)) + EncodeFields(v, |fields|)
  }

  /** The first n items of an array. */
  function EncodeItems(v: Json, n: nat): seq<Byte>
    requires v.Array? && n <= |v.items|
    decreases v, 0, n
  {
    if n == 0 then [] else EncodeItems(v, n - 1) + Encode(v.items[n - 1])
  }

  /** The first n fields of an object. */
  function EncodeFields(v: Json, n: nat): seq<Byte>
    requires v.Object? && n <= |v.fields|
    decreases v, 0, n
  {
    if n == 0 then []
    else EncodeFields(v, n - 1) + EncodedString(v.fields[n - 1].0) + Encode(v.fields[n - 1].1)
  }

  method AppendString(buf: seq<Byte>, s: seq<Byte>) returns (out: seq<Byte>)
    ensures out == buf + EncodedString(s)
  {
    out := buf + StringHeader(|s|) + s;
  }

  /** Appends a JSON value to a buffer. */
  method AppendJSONValue(buf: seq<Byte>, v: Json) returns (out: seq<Byte>)
    ensures out == buf + Encode(v)
    decreases v, 1
  {
    match v {
      case Object(_) => out := AppendJSONObject(buf, v);
      case Array(_) => out := AppendJSONArray(buf, v);
      case String(s) => out := AppendString(buf, s);
      case Number(d) => out := buf + [0xcb] + d;
      case Bool(b) => out := buf + [if b then 0xc3 else 0xc2];
      case Null => out := buf + [0xc0];
    }
  }

  method AppendJSONObject(buf: seq<Byte>, v: Json) returns (out: seq<Byte>)
    requires v.Object?
    ensures out == buf + Encode(v)
    decreases v, 0
  {
    hide Header, EncodedString;
    ghost var header := Header(MapFormat, Truncated(|v.fields|));
    out := buf + Header(MapFormat, Truncated(|v.fields|));
    for i := 0 to |v.fields|
      invariant out == buf + header + EncodeFields(v, i)
    {
      out := AppendString(out, v.fields[i].0);
      out := AppendJSONValue(out, v.fields[i].1);
    }
  }

  method AppendJSONArray(buf: seq<Byte>, v: Json) returns (out: seq<Byte>)
    requires v.Array?
    ensures out == buf + Encode(v)
    decreases v, 0
  {
    hide Header;
    ghost var header := Header(ArrayFormat, Truncated(|v.items|));
    out := buf + Header(ArrayFormat, Truncated(|v.items|));
    for i := 0 to |v.items|
      invariant out == buf + header + EncodeItems(v, i)
    {
      out := AppendJSONValue(out, v.items[i]);
    }
  }

  /** Reads a value: the tree, and what follows it. */
  function Decode(b: seq<Byte>): (r: Option<(Json, seq<Byte>)>)
    ensures r.Some? ==> |r.value.1| < |b|
    decreases |b|, 0
  {
    if b == [] then None
    else if b[0] == 0xc0 then Some((Null, b[1..]))
    else if b[0] == 0xc2 || b[0] == 0xc3 then Some((Bool(b[0] == 0xc3), b[1..]))
    else if b[0] == 0xcb then (if |b| >= 9 then Some((Number(b[1..9]), b[9..])) else None)
    else if ReadHeader(ArrayFormat, b).Some? then
      var (n, rest) := ReadHeader(ArrayFormat, b).value;
      match DecodeItems(rest, n)
      case None => None
      case Some(r) => Some((Array(r.0), r.1))
    else if ReadHeader(MapFormat, b).Some? then
      var (n, rest) := ReadHeader(MapFormat, b).value;
      match DecodeFields(rest, n)
      case None => None
      case Some(r) => Some((Object(r.0), r.1))
    else match DecodeString(b)
      case None => None
      case Some(r) => Some((String(r.0), r.1))
  }

  function DecodeString(b: seq<Byte>): (r: Option<(seq<Byte>, seq<Byte>)>)
    ensures r.Some? ==> |r.value.1| < |b|
  {
    match ReadHeader(StrFormat, b)
    case None => None
    case Some((n, rest)) => if |rest| < n then None else Some((rest[..n], rest[n..]))
  }

  function DecodeItems(b: seq<Byte>, n: nat): (r: Option<(seq<Json>, seq<Byte>)>)
    ensures r.Some? ==> |r.value.1| <= |b| && |r.value.0| == n
    decreases |b|, n
  {
    if n == 0 then Some(([], b))
    else match Decode(b)
      case None => None
      case Some((v, rest)) =>
        match DecodeItems(rest, n - 1)
        case None => None
        case Some(r) => Some(([v] + r.0, r.1))
  }

  function DecodeFields(b: seq<Byte>, n: nat): (r: Option<(seq<(seq<Byte>, Json)>, seq<Byte>)>)
    ensures r.Some? ==> |r.value.1| <= |b| && |r.value.0| == n
    decreases |b|, n
  {
    if n == 0 then Some(([], b))
    else match DecodeString(b)
      case None => None
      case Some((k, rest)) =>
        match Decode(rest)
        case None => None
        case Some((v, rest')) =>
          match DecodeFields(rest', n - 1)
          case None => None
          case Some(r) => Some(([(k, v)] + r.0, r.1))
  }

  /** Every string, array and object has a size that a header can hold. */
  predicate Fits(v: Json) {
    match v
    case String(s) => |s| < SIZE_LIMIT
    case Array(items) => |items| < SIZE_LIMIT && forall i :: 0 <= i < |items| ==> Fits(items[i])
    case Object(fields) =>
      |fields| < SIZE_LIMIT && forall i :: 0 <= i < |fields| ==> |fields[i].0| < SIZE_LIMIT && Fits(fields[i].1)
    case _ => true
  }

  /** How a value is told from its first byte. */
  lemma DecodesString(b: seq<Byte>)
    requires b != [] && StrFormat.Leads(b[0]) && ReadHeader(ArrayFormat, b) == None && ReadHeader(MapFormat, b) == None
    ensures Decode(b) == match DecodeString(b) case None => None case Some(r) => Some((String(r.0), r.1))
  {
    hide DecodeString, ReadHeader;
  }

  lemma DecodesArray(b: seq<Byte>, n: Size, rest: seq<Byte>)
    requires b != [] && ArrayFormat.Leads(b[0]) && ReadHeader(ArrayFormat, b) == Some((n, rest))
    ensures Decode(b) == match DecodeItems(rest, n) case None => None case Some(r) => Some((Array(r.0), r.1))
  {
    hide ReadHeader, DecodeItems, DecodeString;
  }

  lemma DecodesObject(b: seq<Byte>, n: Size, rest: seq<Byte>)
    requires b != [] && MapFormat.Leads(b[0]) && ReadHeader(ArrayFormat, b) == None
    requires ReadHeader(MapFormat, b) == Some((n, rest))
    ensures Decode(b) == match DecodeFields(rest, n) case None => None case Some(r) => Some((Object(r.0), r.1))
  {
    hide ReadHeader, DecodeFields, DecodeString;
  }

  lemma StringReadsBack(s: seq<Byte>, rest: seq<Byte>)
    requires |s| < SIZE_LIMIT
    ensures DecodeString(EncodedString(s) + rest) == Some((s, rest))
  {
    EncodedStringIs(s, rest);
    hide Header, ReadHeader, EncodedString;
    HeaderReadsBack(StrFormat, |s|, s + rest);
    assert (s + rest)[..|s|] == s && (s + rest)[|s|..] == rest;
  }

  lemma EncodedStringLeads(s: seq<Byte>, rest: seq<Byte>)
    requires |s| < SIZE_LIMIT
    ensures var b := EncodedString(s) + rest;
      b != [] && StrFormat.Leads(b[0]) && ReadHeader(ArrayFormat, b) == None && ReadHeader(MapFormat, b) == None
  {
    EncodedStringIs(s, rest);
    hide Header, ReadHeader, EncodedString, Format.Leads;
    HeaderReadsBack(StrFormat, |s|, s + rest);
    FormatsDiffer(ArrayFormat, StrFormat, |s|, s + rest);
    FormatsDiffer(MapFormat, StrFormat, |s|, s + rest);
  }

  lemma EncodedStringIs(s: seq<Byte>, rest: seq<Byte>)
    requires |s| < SIZE_LIMIT
    ensures EncodedString(s) + rest == Header(StrFormat, |s|) + (s + rest)
  {
    hide Header;
  }

  lemma StringValueReadsBack(s: seq<Byte>, rest: seq<Byte>)
    requires |s| < SIZE_LIMIT
    ensures Decode(EncodedString(s) + rest) == Some((String(s), rest))
  {
    hide Decode, DecodeString, EncodedString, ReadHeader;
    StringReadsBack(s, rest);
    EncodedStringLeads(s, rest);
    DecodesString(EncodedString(s) + rest);
  }

  lemma ItemsFromOne(v: Json, n: nat, rest: seq<Byte>)
    requires v.Array? && n < |v.items|
    ensures ItemsFrom(v, n) + rest == Encode(v.items[n]) + (ItemsFrom(v, n + 1) + rest)
  {
    hide Encode;
  }

  lemma DecodesItem(b: seq<Byte>, n: nat, value: Json, rest: seq<Byte>, items: seq<Json>, end: seq<Byte>)
    requires Decode(b) == Some((value, rest)) && DecodeItems(rest, n) == Some((items, end))
    ensures DecodeItems(b, n + 1) == Some(([value] + items, end))
  {
    hide Decode;
  }

  /** Reading the items behind the first n of an array. */
  lemma {:induction false} ItemsReadBack(v: Json, n: nat, rest: seq<Byte>)
    requires v.Array? && n <= |v.items| && Fits(v)
    ensures DecodeItems(ItemsFrom(v, n) + rest, |v.items| - n) == Some((v.items[n..], rest))
    decreases v, 0, |v.items| - n
  {
    hide Decode, Encode;
    if n == |v.items| {
      assert ItemsFrom(v, n) + rest == rest && v.items[n..] == [];
    } else {
      var more := ItemsFrom(v, n + 1) + rest;
      ReadsBack(v.items[n], more);
      ItemsReadBack(v, n + 1, rest);
      ItemsFromOne(v, n, rest);
      hide ItemsFrom, DecodeItems;
      DecodesItem(ItemsFrom(v, n) + rest, |v.items| - n - 1, v.items[n], more, v.items[n + 1..], rest);
      assert [v.items[n]] + v.items[n + 1..] == v.items[n..];
    }
  }

  /** The bytes of the items from the n-th on. */
  function ItemsFrom(v: Json, n: nat): seq<Byte>
    requires v.Array? && n <= |v.items|
    decreases |v.items| - n
  {
    if n == |v.items| then [] else Encode(v.items[n]) + ItemsFrom(v, n + 1)
  }

  lemma {:induction false} ItemsSplit(v: Json, n: nat)
    requires v.Array? && n <= |v.items|
    ensures EncodeItems(v, |v.items|) == EncodeItems(v, n) + ItemsFrom(v, n)
    decreases |v.items| - n
  {
    hide Encode;
    if n < |v.items| {
      ItemsSplit(v, n + 1);
    }
  }

  function FieldsFrom(v: Json, n: nat): seq<Byte>
    requires v.Object? && n <= |v.fields|
    decreases |v.fields| - n
  {
    if n == |v.fields| then [] else EncodedString(v.fields[n].0) + Encode(v.fields[n].1) + FieldsFrom(v, n + 1)
  }

  lemma {:induction false} FieldsSplit(v: Json, n: nat)
    requires v.Object? && n <= |v.fields|
    ensures EncodeFields(v, |v.fields|) == EncodeFields(v, n) + FieldsFrom(v, n)
    decreases |v.fields| - n
  {
    hide Encode, EncodedString;
    if n < |v.fields| {
      FieldsSplit(v, n + 1);
      var a, k, x, b := EncodeFields(v, n), EncodedString(v.fields[n].0), Encode(v.fields[n].1), FieldsFrom(v, n + 1);
      assert a + (k + x + b) == (a + k + x) + b;
    }
  }

  lemma FieldsFromOne(v: Json, n: nat, rest: seq<Byte>)
    requires v.Object? && n < |v.fields|
    ensures FieldsFrom(v, n) + rest
            == EncodedString(v.fields[n].0) + (Encode(v.fields[n].1) + (FieldsFrom(v, n + 1) + rest))
  {
    hide Encode, EncodedString;
    Associate(EncodedString(v.fields[n].0), Encode(v.fields[n].1), FieldsFrom(v, n + 1), rest);
  }

  lemma Associate(a: seq<Byte>, b: seq<Byte>, c: seq<Byte>, d: seq<Byte>)
    ensures a + b + c + d == a + (b + (c + d))
  {
  }

  lemma DecodesField(b: seq<Byte>, n: nat, key: seq<Byte>, rest: seq<Byte>, value: Json, rest': seq<Byte>,
                     fields: seq<(seq<Byte>, Json)>, end: seq<Byte>)
    requires DecodeString(b) == Some((key, rest)) && Decode(rest) == Some((value, rest'))
    requires DecodeFields(rest', n) == Some((fields, end))
    ensures DecodeFields(b, n + 1) == Some(([(key, value)] + fields, end))
  {
    hide DecodeString, Decode;
  }

  lemma {:induction false} FieldsReadBack(v: Json, n: nat, rest: seq<Byte>)
    requires v.Object? && n <= |v.fields| && Fits(v)
    ensures DecodeFields(FieldsFrom(v, n) + rest, |v.fields| - n) == Some((v.fields[n..], rest))
    decreases v, 0, |v.fields| - n
  {
    hide Decode, Encode, DecodeString, EncodedString;
    if n == |v.fields| {
      assert FieldsFrom(v, n) + rest == rest && v.fields[n..] == [];
    } else {
      var (key, value) := v.fields[n];
      var more := FieldsFrom(v, n + 1) + rest;
      StringReadsBack(key, Encode(value) + more);
      ReadsBack(value, more);
      FieldsReadBack(v, n + 1, rest);
      FieldsFromOne(v, n, rest);
      hide FieldsFrom, DecodeFields;
      DecodesField(FieldsFrom(v, n) + rest, |v.fields| - n - 1, key, Encode(value) + more, value, more,
                   v.fields[n + 1..], rest);
      assert [(key, value)] + v.fields[n + 1..] == v.fields[n..];
    }
  }

  lemma ContainerReadsBack(f: Format, n: Size, body: seq<Byte>, rest: seq<Byte>)
    requires !f.StrFormat?
    ensures ReadHeader(f, Header(f, n) + body + rest) == Some((n, body + rest))
    ensures f.MapFormat? ==> ReadHeader(ArrayFormat, Header(f, n) + body + rest) == None
    ensures f.Leads((Header(f, n) + body + rest)[0])
  {
    assert Header(f, n) + body + rest == Header(f, n) + (body + rest);
    HeaderReadsBack(f, n, body + rest);
    FormatsDiffer(StrFormat, f, n, body + rest);
    if f.MapFormat? {
      FormatsDiffer(ArrayFormat, f, n, body + rest);
    }
  }

  /** Reading what was written gives the tree, and stops where it ends. */
  lemma {:induction false} ReadsBack(v: Json, rest: seq<Byte>)
    requires Fits(v)
    ensures Decode(Encode(v) + rest) == Some((v, rest))
    decreases v, 1
  {
    match v
    case Null => assert (Encode(v) + rest)[1..] == rest;
    case Bool(_) => assert (Encode(v) + rest)[1..] == rest;
    case Number(d) => assert (Encode(v) + rest)[1..9] == d && (Encode(v) + rest)[9..] == rest;
    case String(s) => StringValueReadsBack(s, rest);
    case Array(items) => ArrayReadsBack(v, rest);
    case Object(fields) => ObjectReadsBack(v, rest);
  }

  lemma NotTruncated(n: nat)
    requires n < SIZE_LIMIT
    ensures Truncated(n) == n
  {
  }

  lemma NoItems(v: Json)
    ensures v.Array? ==> EncodeItems(v, 0) == []
    ensures v.Object? ==> EncodeFields(v, 0) == []
  {
  }

  lemma EncodedArray(v: Json)
    requires v.Array? && |v.items| < SIZE_LIMIT
    ensures Encode(v) == Header(ArrayFormat, |v.items|) + ItemsFrom(v, 0)
  {
    hide Header, ItemsFrom, Truncated, EncodeItems;
    NotTruncated(|v.items|);
    NoItems(v);
    ItemsSplit(v, 0);
    assert [] + ItemsFrom(v, 0) == ItemsFrom(v, 0);
  }

  lemma EncodedObject(v: Json)
    requires v.Object? && |v.fields| < SIZE_LIMIT
    ensures Encode(v) == Header(MapFormat, |v.fields|) + FieldsFrom(v, 0)
  {
    hide Header, FieldsFrom, Truncated, EncodeFields;
    NotTruncated(|v.fields|);
    NoItems(v);
    FieldsSplit(v, 0);
    assert [] + FieldsFrom(v, 0) == FieldsFrom(v, 0);
  }

  lemma ArrayReadsBack(v: Json, rest: seq<Byte>)
    requires v.Array? && Fits(v)
    ensures Decode(Encode(v) + rest) == Some((v, rest))
    decreases v, 0, |v.items| + 1
  {
    EncodedArray(v);
    hide Header, ReadHeader, Decode, Encode, DecodeItems, ItemsFrom;
    ContainerReadsBack(ArrayFormat, |v.items|, ItemsFrom(v, 0), rest);
    ItemsReadBack(v, 0, rest);
    DecodesArray(Encode(v) + rest, |v.items|, ItemsFrom(v, 0) + rest);
    assert v.items[0..] == v.items;
  }

  lemma ObjectReadsBack(v: Json, rest: seq<Byte>)
    requires v.Object? && Fits(v)
    ensures Decode(Encode(v) + rest) == Some((v, rest))
    decreases v, 0, |v.fields| + 1
  {
    EncodedObject(v);
    hide Header, ReadHeader, Decode, Encode, DecodeFields, FieldsFrom;
    ContainerReadsBack(MapFormat, |v.fields|, FieldsFrom(v, 0), rest);
    FieldsReadBack(v, 0, rest);
    DecodesObject(Encode(v) + rest, |v.fields|, FieldsFrom(v, 0) + rest);
    assert v.fields[0..] == v.fields;
  }

  /** No reader finds a size beyond what a header holds. */
  lemma {:induction false} DecodedFits(b: seq<Byte>)
    ensures Decode(b).Some? ==> Fits(Decode(b).value.0)
    decreases |b|, 0
  {
    if ReadHeader(ArrayFormat, b).Some? {
      var (n, rest) := ReadHeader(ArrayFormat, b).value;
      DecodedItemsFit(rest, n);
    }
    if ReadHeader(MapFormat, b).Some? {
      var (n, rest) := ReadHeader(MapFormat, b).value;
      DecodedFieldsFit(rest, n);
    }
  }

  lemma {:induction false} DecodedItemsFit(b: seq<Byte>, n: nat)
    ensures DecodeItems(b, n).Some? ==> forall i :: 0 <= i < n ==> Fits(DecodeItems(b, n).value.0[i])
    decreases |b|, n
  {
    if n > 0 && Decode(b).Some? {
      DecodedFits(b);
      DecodedItemsFit(Decode(b).value.1, n - 1);
    }
  }

  lemma {:induction false} DecodedFieldsFit(b: seq<Byte>, n: nat)
    ensures DecodeFields(b, n).Some? ==>
              forall i :: 0 <= i < n ==>
                var field := DecodeFields(b, n).value.0[i]; |field.0| < SIZE_LIMIT && Fits(field.1)
    decreases |b|, n
  {
    if n > 0 && DecodeString(b).Some? {
      var rest := DecodeString(b).value.1;
      DecodedFits(rest);
      if Decode(rest).Some? {
        DecodedFieldsFit(Decode(rest).value.1, n - 1);
      }
    }
  }

  /** A tree survives exactly when its sizes fit their headers. */
  lemma RoundTrip(v: Json, rest: seq<Byte>)
    ensures Decode(Encode(v) + rest) == Some((v, rest)) <==> Fits(v)
  {
    DecodedFits(Encode(v) + rest);
    if Fits(v) {
      ReadsBack(v, rest);
    }
  }

  /** Some trees and their bytes, as the MessagePack specification has them. */
  lemma KnownBytes(d: Double)
    ensures Encode(Null) == [0xc0] && Encode(Bool(false)) == [0xc2] && Encode(Bool(true)) == [0xc3]
    ensures Encode(Number(d)) == [0xcb] + d && Encode(String([])) == [0xa0] && Encode(String([0x61])) == [0xa1, 0x61]
    ensures Encode(Array([Null, Bool(true)])) == [0x92, 0xc0, 0xc3]
    ensures Encode(Object([([0x61], Null)])) == [0x81, 0xa1, 0x61, 0xc0]
    ensures Header(StrFormat, 31) == [0xbf] && Header(StrFormat, 32) == [0xd9, 32]
    ensures Header(StrFormat, 256) == [0xda, 1, 0] && Header(StrFormat, 65536) == [0xdb, 0, 1, 0, 0]
    ensures Header(ArrayFormat, 15) == [0x9f] && Header(ArrayFormat, 16) == [0xdc, 0, 16]
    ensures Header(ArrayFormat, 65536) == [0xdd, 0, 1, 0, 0] && Header(MapFormat, 15) == [0x8f]
    ensures Header(MapFormat, 16) == [0xde, 0, 16] && Header(MapFormat, 65536) == [0xdf, 0, 1, 0, 0]
  {
    var a, o := Array([Null, Bool(true)]), Object([([0x61], Null)]);
    assert EncodeItems(a, 1) == EncodeItems(a, 0) + [0xc0] && EncodeItems(a, 2) == EncodeItems(a, 1) + [0xc3];
    assert EncodeFields(o, 1) == EncodeFields(o, 0) + [0xa1, 0x61] + [0xc0];
  }
}
