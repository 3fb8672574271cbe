/** `Parser.unpack` and what it leans on: the buffer is consumed left to
    right, each structure field takes the next `length` bytes
    (`__unpack_stream`) and `set_type` turns them into entries of the result
    dictionary. */
module Unpack {
  import opened Wrappers
  import opened Schema
  import opened Codec
  import Markers

  /** `__unpack_stream`: `(data[:length], data[length:])`. */
  function UnpackStream(data: seq<Byte>, length: nat): (r: (seq<Byte>, seq<Byte>))
    ensures r.0 + r.1 == data
    ensures |r.0| == Min(length, |data|)
  {
    (data[..Min(length, |data|)], data[Min(length, |data|)..])
  }

  /** Where field `i` starts: the total length of the fields before it. */
  function Offset(fields: seq<FieldSpec>, i: nat): nat
    requires i <= |fields|
  {
    SumLengths(fields[..i])
  }

  /** The bytes field `i` is given: `length` bytes from its offset, cut short
      by the end of the buffer (Python slices never fail). */
  function FieldSlice(fields: seq<FieldSpec>, data: seq<Byte>, i: nat): seq<Byte>
    requires i < |fields|
  {
    data[Min(Offset(fields, i), |data|)..Min(Offset(fields, i) + fields[i].length, |data|)]
  }

  /** The concatenation of byte strings, in order. */
  function Concat(parts: seq<seq<Byte>>): seq<Byte>
  {
    if parts == [] then [] else Concat(parts[..|parts| - 1]) + parts[|parts| - 1]
  }

  /** Each name's marker value in the shared field, in order. */
  function MarkerValues(names: seq<string>, markers: seq<MarkerSpec>, data: seq<Byte>): seq<Result<nat>>
  {
    seq(|names|, i requires 0 <= i < |names| => Markers.MarkerValue(markers, names[i], data))
  }

  /** The dictionary of `unpack_multiple_marker` built from the names and
      their values: entries in order, the first error stops it. */
  function Collect(names: seq<string>, vals: seq<Result<nat>>): Result<map<FieldName, Value>>
    requires |vals| == |names|
  {
    if names == [] then Ok(map[])
    else
      var n := |names| - 1;
      match Collect(names[..n], vals[..n])
      case Err(e) => Err(e)
      case Ok(m) =>
        match vals[n]
        case Err(e) => Err(e)
        case Ok(v) => Ok(m[Single(names[n]) := Int(v)])
  }

  /** What `unpack_multiple_marker` builds: one entry per marker name, each
      the marker's bits of the shared field; the first name without a
      description or with a bad split is the error. */
  function MultiMarkers(names: seq<string>, markers: seq<MarkerSpec>, data: seq<Byte>): Result<map<FieldName, Value>>
  {
    Collect(names, MarkerValues(names, markers, data))
  }

  lemma {:induction false} CollectOk(names: seq<string>, vals: seq<Result<nat>>)
    requires |vals| == |names|
    ensures Collect(names, vals).Ok? <==> forall i :: 0 <= i < |vals| ==> vals[i].Ok?
  {
    if names != [] {
      var n := |names| - 1;
      CollectOk(names[..n], vals[..n]);
      assert forall i :: 0 <= i < n ==> vals[..n][i] == vals[i];
    }
  }

  lemma {:induction false} CollectKeys(names: seq<string>, vals: seq<Result<nat>>)
    requires |vals| == |names| && Collect(names, vals).Ok?
    ensures forall k :: k in Collect(names, vals).value <==> k.Single? && k.name in names
  {
    if names != [] {
      var n := |names| - 1;
      CollectKeys(names[..n], vals[..n]);
      assert names == names[..n] + [names[n]];
    }
  }

  lemma {:induction false} CollectValues(names: seq<string>, vals: seq<Result<nat>>)
    requires |vals| == |names| && Collect(names, vals).Ok?
    requires forall i, j :: 0 <= i < |names| && 0 <= j < |names| && names[i] == names[j] ==> vals[i] == vals[j]
    ensures forall i :: 0 <= i < |names| ==>
              vals[i].Ok? && Single(names[i]) in Collect(names, vals).value &&
              Collect(names, vals).value[Single(names[i])] == Int(vals[i].value)
  {
    if names != [] {
      var n := |names| - 1;
      CollectOk(names, vals);
      CollectKeys(names[..n], vals[..n]);
      CollectValues(names[..n], vals[..n]);
      assert forall i :: 0 <= i < n ==> names[..n][i] == names[i] && vals[..n][i] == vals[i];
    }
  }

  /** The dictionary exists exactly when every name has a marker that splits. */
  lemma MultiMarkersOk(names: seq<string>, markers: seq<MarkerSpec>, data: seq<Byte>)
    ensures MultiMarkers(names, markers, data).Ok? <==>
              forall i :: 0 <= i < |names| ==> Markers.MarkerValue(markers, names[i], data).Ok?
  {
    var vals := MarkerValues(names, markers, data);
    assert forall i :: 0 <= i < |names| ==> vals[i] == Markers.MarkerValue(markers, names[i], data);
    CollectOk(names, vals);
  }

  /** Its keys are exactly the marker names, and each name's entry is the
      value of its marker. */
  lemma MultiMarkersEntries(names: seq<string>, markers: seq<MarkerSpec>, data: seq<Byte>)
    requires MultiMarkers(names, markers, data).Ok?
    ensures forall k :: k in MultiMarkers(names, markers, data).value <==> k.Single? && k.name in names
    ensures forall i :: 0 <= i < |names| ==>
              Markers.MarkerValue(markers, names[i], data).Ok? && Single(names[i]) in MultiMarkers(names, markers, data).value &&
              MultiMarkers(names, markers, data).value[Single(names[i])] == Int(Markers.MarkerValue(markers, names[i], data).value)
  {
    var vals := MarkerValues(names, markers, data);
    CollectKeys(names, vals);
    CollectValues(names, vals);
  }

  /** What an `unpack_<type>` decoder returns: a dictionary, or a plain value. */
  datatype Decoded = Dict(entries: map<FieldName, Value>) | Scalar(v: Value)

  /** The decoder `getattr(self, 'unpack_' + type)` finds; an unknown type
      has none. `unpack_markers` reads a tuple of names as several markers and
      a single name as one integer. */
  function Decode(tag: string, name: FieldName, data: seq<Byte>, markers: seq<MarkerSpec>): (r: Result<Decoded>)
    ensures tag == "timestamp" ==>
              (r.Ok? <==> UnpackInt(data).Ok?) && (r.Ok? ==> r.value == Scalar(Int(UnpackInt(data).value)))
    ensures tag == "markers" && name.Single? ==>
              (r.Ok? <==> UnpackInt(data).Ok?) && (r.Ok? ==> r.value == Dict(map[name := Int(UnpackInt(data).value)]))
    ensures tag != "timestamp" && tag != "bool_marker" && tag != "markers" ==> r == Err(UnknownType(tag))
    ensures r.Ok? && r.value.Scalar? ==> tag != "markers"
    ensures r.Ok? && r.value.Dict? ==>
              tag == "markers" &&
              forall k :: k in r.value.entries <==> if name.Multi? then k.Single? && k.name in name.names else k == name
  {
    if tag == "timestamp" then
      match UnpackInt(data)
      case Err(e) => Err(e)
      case Ok(v) => Ok(Scalar(Int(v)))
    else if tag == "bool_marker" then Ok(Scalar(Bool(UnpackBoolMarker(data))))
    else if tag == "markers" then
      match name
      case Single(n) =>
        (match UnpackInt(data)
         case Err(e) => Err(e)
         case Ok(v) => Ok(Dict(map[Single(n) := Int(v)])))
      case Multi(ns) =>
        (match MultiMarkers(ns, markers, data)
         case Err(e) => Err(e)
         case Ok(m) => CollectKeys(ns, MarkerValues(ns, markers, data)); Ok(Dict(m)))
    else Err(UnknownType(tag))
  }

  /** The keys `set_type` produces for a field: the marker names of a
      multi-marker field, otherwise the field's own name. */
  predicate IsFieldKey(f: FieldSpec, k: FieldName)
  {
    if f.tag == Some("markers") && f.name.Multi? then k.Single? && k.name in f.name.names
    else k == f.name
  }

  /** `set_type`: an untyped field is its raw bytes under its name; a
      decoder's dictionary is taken as it is, any other decoded value is put
      under the field's name. */
  function SetType(f: FieldSpec, data: seq<Byte>, markers: seq<MarkerSpec>): (r: Result<map<FieldName, Value>>)
    ensures f.tag.None? ==> r == Ok(map[f.name := Raw(data)])
    ensures r.Ok? ==> forall k :: k in r.value <==> IsFieldKey(f, k)
    ensures f.tag == Some("bool_marker") ==> r == Ok(map[f.name := Bool(data == [1])])
  {
    match f.tag
    case None => Ok(map[f.name := Raw(data)])
    case Some(t) =>
      match Decode(t, f.name, data, markers)
      case Err(e) => Err(e)
      case Ok(Dict(m)) => Ok(m)
      case Ok(Scalar(v)) => Ok(map[f.name := v])
  }

  /** The dictionary `unpack` has built after the first `n` fields: each
      field's entries merged over the earlier ones, or the first error. */
  function DecodeFields(fields: seq<FieldSpec>, markers: seq<MarkerSpec>, data: seq<Byte>, n: nat): Result<map<FieldName, Value>>
    requires n <= |fields|
  {
    if n == 0 then Ok(map[])
    else
      match DecodeFields(fields, markers, data, n - 1)
      case Err(e) => Err(e)
      case Ok(m) =>
        match SetType(fields[n - 1], FieldSlice(fields, data, n - 1), markers)
        case Err(e) => Err(e)
        case Ok(d) => Ok(m + d)
  }

  /** `unpack`: walks the structure left to right, slicing the request and
      merging each field's entries into the result. A package without a
      structure is a KeyError. */
  method Unpack(p: Package, markers: seq<MarkerSpec>, request: seq<Byte>) returns (r: Result<map<FieldName, Value>>)
    ensures p.structure.None? ==> r == Err(NoStructure)
    ensures p.structure.Some? ==> r == DecodeFields(p.structure.value, markers, request, |p.structure.value|)
  {
    if p.structure.None? {
      return Err(NoStructure);
    }
    var fields := p.structure.value;
    var package: map<FieldName, Value> := map[];
    var data := request;
    var i := 0;
    while i < |fields|
      invariant 0 <= i <= |fields|
      invariant data == request[Min(Offset(fields, i), |request|)..]
      invariant DecodeFields(fields, markers, request, i) == Ok(package)
    {
      StreamStep(fields, request, i);
      var part, rest := UnpackStream(data, fields[i].length).0, UnpackStream(data, fields[i].length).1;
      var entries := SetType(fields[i], part, markers);
      if entries.Err? {
        DecodeErrorSticks(fields, markers, request, i + 1, |fields|);
        return Err(entries.error);
      }
      package := package + entries.value;
      data := rest;
      i := i + 1;
    }
    return Ok(package);
  }

  /** One step of `unpack`: splitting what is left of the request at field
      `i`'s length gives that field's slice and what is left after it. */
  lemma StreamStep(fields: seq<FieldSpec>, request: seq<Byte>, i: nat)
    requires i < |fields|
    ensures var s := UnpackStream(request[Min(Offset(fields, i), |request|)..], fields[i].length);
            s.0 == FieldSlice(fields, request, i) && s.1 == request[Min(Offset(fields, i + 1), |request|)..]
  {
    assert fields[..i + 1][..i] == fields[..i];
    assert Offset(fields, i + 1) == Offset(fields, i) + fields[i].length;
  }

  /** `unpack_multiple_marker`: fills the dictionary marker by marker. */
  method UnpackMultipleMarker(names: seq<string>, markers: seq<MarkerSpec>, data: seq<Byte>) returns (r: Result<map<FieldName, Value>>)
    ensures r == MultiMarkers(names, markers, data)
  {
    ghost var vals := MarkerValues(names, markers, data);
    var package: map<FieldName, Value> := map[];
    var i := 0;
    while i < |names|
      invariant 0 <= i <= |names|
      invariant Collect(names[..i], vals[..i]) == Ok(package)
    {
      var v := Markers.MarkerValue(markers, names[i], data);
      CollectStep(names, vals, i);
      if v.Err? {
        CollectErrorSticks(names, vals, i + 1);
        return Err(v.error);
      }
      package := package[Single(names[i]) := Int(v.value)];
      i := i + 1;
    }
    assert names[..i] == names && vals[..i] == vals;
    return Ok(package);
  }

  /** One more name: its entry is added to the dictionary so far, or its
      error is the result. */
  lemma CollectStep(names: seq<string>, vals: seq<Result<nat>>, i: nat)
    requires |vals| == |names| && i < |names|
    ensures Collect(names[..i + 1], vals[..i + 1]) ==
              match Collect(names[..i], vals[..i])
              case Err(e) => Err(e)
              case Ok(m) => if vals[i].Err? then Err(vals[i].error) else Ok(m[Single(names[i]) := Int(vals[i].value)])
  {
    assert names[..i + 1][..i] == names[..i] && vals[..i + 1][..i] == vals[..i];
  }

  // ---------------------------------------------------------------------
  // Properties

  lemma {:induction false} DecodeErrorSticks(fields: seq<FieldSpec>, markers: seq<MarkerSpec>, data: seq<Byte>, n: nat, m: nat)
    requires n <= m <= |fields|
    requires DecodeFields(fields, markers, data, n).Err?
    ensures DecodeFields(fields, markers, data, m) == DecodeFields(fields, markers, data, n)
  {
    if m > n {
      DecodeErrorSticks(fields, markers, data, n, m - 1);
    }
  }

  lemma {:induction false} CollectErrorSticks(names: seq<string>, vals: seq<Result<nat>>, k: nat)
    requires |vals| == |names| && k <= |names|
    requires Collect(names[..k], vals[..k]).Err?
    ensures Collect(names, vals) == Collect(names[..k], vals[..k])
  {
    if k < |names| {
      var n := |names| - 1;
      assert names[..n][..k] == names[..k] && vals[..n][..k] == vals[..k];
      CollectErrorSticks(names[..n], vals[..n], k);
    } else {
      assert names[..k] == names && vals[..k] == vals;
    }
  }

  /** The fields consume the buffer from the front and in order: together the
      first `n` slices are the buffer's first `Offset(n)` bytes (or all of it). */
  lemma {:induction false} SlicesTileBuffer(fields: seq<FieldSpec>, data: seq<Byte>, n: nat)
    requires n <= |fields|
    ensures Concat(seq(n, i requires 0 <= i < n => FieldSlice(fields, data, i))) == data[..Min(Offset(fields, n), |data|)]
  {
    var slices := seq(n, i requires 0 <= i < n => FieldSlice(fields, data, i));
    if n > 0 {
      SlicesTileBuffer(fields, data, n - 1);
      assert slices[..n - 1] == seq(n - 1, i requires 0 <= i < n - 1 => FieldSlice(fields, data, i));
      assert fields[..n][..n - 1] == fields[..n - 1];
      assert Offset(fields, n) == Offset(fields, n - 1) + fields[n - 1].length;
    } else {
      assert slices == [];
    }
  }

  /** Unpacking consumes exactly `calc_requared_length` bytes when the
      request holds that many. */
  lemma UnpackConsumesRequiredLength(p: Package, data: seq<Byte>)
    requires p.structure.Some? && CalcRequiredLength(p) <= |data|
    ensures var fields := p.structure.value;
            Concat(seq(|fields|, i requires 0 <= i < |fields| => FieldSlice(fields, data, i))) == data[..CalcRequiredLength(p)]
  {
    var fields := p.structure.value;
    SlicesTileBuffer(fields, data, |fields|);
    assert fields[..|fields|] == fields;
  }

  /** A package with no structure declares no length. */
  lemma NoStructureNoLength(p: Package)
    requires p.structure.None? || p.structure == Some([])
    ensures CalcRequiredLength(p) == 0
  {
  }

  lemma {:induction false} ConcatAppend(a: seq<seq<Byte>>, b: seq<seq<Byte>>)
    ensures Concat(a + b) == Concat(a) + Concat(b)
  {
    if b == [] {
      assert a + b == a;
    } else {
      assert (a + b)[..|a + b| - 1] == a + b[..|b| - 1];
      ConcatAppend(a, b[..|b| - 1]);
    }
  }

  lemma {:induction false} OffsetOfParts(fields: seq<FieldSpec>, parts: seq<seq<Byte>>, i: nat)
    requires |parts| == |fields| && i <= |fields|
    requires forall j :: 0 <= j < |fields| ==> |parts[j]| == fields[j].length
    ensures Offset(fields, i) == |Concat(parts[..i])|
  {
    if i > 0 {
      OffsetOfParts(fields, parts, i - 1);
      assert fields[..i][..i - 1] == fields[..i - 1];
      assert parts[..i][..i - 1] == parts[..i - 1];
    }
  }

  /** A message made by concatenating one part per field, each of the
      field's declared length, is sliced back into exactly those parts. */
  lemma SliceOfConcat(fields: seq<FieldSpec>, parts: seq<seq<Byte>>, i: nat)
    requires |parts| == |fields| && i < |fields|
    requires forall j :: 0 <= j < |fields| ==> |parts[j]| == fields[j].length
    ensures FieldSlice(fields, Concat(parts), i) == parts[i]
  {
    OffsetOfParts(fields, parts, i);
    assert parts == parts[..i] + [parts[i]] + parts[i + 1..];
    ConcatAppend(parts[..i] + [parts[i]], parts[i + 1..]);
    ConcatAppend(parts[..i], [parts[i]]);
    var single: seq<seq<Byte>> := [parts[i]];
    assert single[..0] == [];
    assert Concat(single) == parts[i];
  }

  /** What unpacking gives for a structure of untyped fields: each name
      bound to its raw part, later fields winning on a repeated name. */
  function RawEntries(fields: seq<FieldSpec>, parts: seq<seq<Byte>>, n: nat): map<FieldName, Value>
    requires n <= |fields| == |parts|
  {
    if n == 0 then map[] else RawEntries(fields, parts, n - 1)[fields[n - 1].name := Raw(parts[n - 1])]
  }

  /** Round trip for untyped fields: unpacking the concatenation of
      correctly sized parts gives every part back under its field's name. */
  lemma {:induction false} UnpackRawRoundTrip(fields: seq<FieldSpec>, markers: seq<MarkerSpec>, parts: seq<seq<Byte>>, n: nat)
    requires n <= |fields| == |parts|
    requires forall j :: 0 <= j < |fields| ==> |parts[j]| == fields[j].length && fields[j].tag.None?
    ensures DecodeFields(fields, markers, Concat(parts), n) == Ok(RawEntries(fields, parts, n))
  {
    if n > 0 {
      UnpackRawRoundTrip(fields, markers, parts, n - 1);
      SliceOfConcat(fields, parts, n - 1);
      var m := RawEntries(fields, parts, n - 1);
      var d := map[fields[n - 1].name := Raw(parts[n - 1])];
      assert SetType(fields[n - 1], FieldSlice(fields, Concat(parts), n - 1), markers) == Ok(d);
      assert m + d == m[fields[n - 1].name := Raw(parts[n - 1])];
    }
  }

  /** A package with one 1-byte bool field reads back the boolean it was packed from. */
  lemma BoolFieldRoundTrip(b: bool)
    ensures var f := FieldSpec(Single("flag"), 1, Some("bool_marker"));
            DecodeFields([f], [], PackBool(b), 1) == Ok(map[Single("flag") := Bool(b)])
  {
    var f := FieldSpec(Single("flag"), 1, Some("bool_marker"));
    assert [f][..0] == [];
    assert Offset([f], 0) == 0;
    assert FieldSlice([f], PackBool(b), 0) == PackBool(b);
    assert SetType(f, PackBool(b), []) == Ok(map[Single("flag") := Bool(b)]);
    assert map[] + map[Single("flag") := Bool(b)] == map[Single("flag") := Bool(b)];
  }
}
