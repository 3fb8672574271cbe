/** The protocol document the node is driven by: packages with their
    `structure` (ordered field list) and `define` (predicate names), the
    named bit markers and the named contractions. */
module Schema {
  import opened Wrappers
  import Codec

  /** A field's `name`: a plain name, or a tuple of marker names sharing one field. */
  datatype FieldName = Single(name: string) | Multi(names: seq<string>)

  /** One entry of a `structure` list: `name`, `length` in bytes, optional `type`. */
  datatype FieldSpec = FieldSpec(name: FieldName, length: nat, tag: Option<string>)

  /** One entry of `markers`: `name`, owning field, `start bit`, `length` in bits. */
  datatype MarkerSpec = MarkerSpec(name: string, field: string, startBit: nat, lengthBit: nat)

  /** A package's `define`: normally a list of predicate names, sometimes a bare name. */
  datatype DefineSpec = Names(names: seq<string>) | OneName(name: string)

  /** A package; `structure` and `response` may be absent from the document. */
  datatype Package = Package(name: string, structure: Option<seq<FieldSpec>>,
                             define: DefineSpec, response: Option<string>)

  /** A contraction's `structure` list, read as predicate names when it is
      spliced into a `define` list and as field entries when it is spliced
      into a `structure` list. */
  datatype Contraction = Contraction(define: seq<string>, structure: seq<FieldSpec>)

  /** What a decoded field holds. */
  datatype Value = Raw(bytes: seq<Codec.Byte>) | Int(n: nat) | Bool(b: bool)

  /** `find_protocol_package`: the first package carrying the name; an error
      when there is none. The source iterates over the protocol dictionary
      itself, which yields its keys, so `package['name']` would fail on the
      first one; the walk meant is over the protocol's package list. */
  function FindProtocolPackage(packages: seq<Package>, name: string): (r: Result<Package>)
    ensures r.Ok? ==> exists i :: 0 <= i < |packages| && packages[i] == r.value &&
                                 r.value.name == name &&
                                 forall j :: 0 <= j < i ==> packages[j].name != name
    ensures r.Err? <==> forall i :: 0 <= i < |packages| ==> packages[i].name != name
    ensures r.Err? ==> r.error == NoPackage(name)
  {
    if packages == [] then Err(NoPackage(name))
    else if packages[0].name == name then Ok(packages[0])
    else
      var r := FindProtocolPackage(packages[1..], name);
      if r.Ok? then
        assert forall i :: 0 < i <= |packages[1..]| ==> packages[i] == packages[1..][i - 1];
        r
      else r
  }

  /** The sum of the field lengths of a structure list. */
  function SumLengths(fields: seq<FieldSpec>): nat
  {
    if fields == [] then 0 else SumLengths(fields[..|fields| - 1]) + fields[|fields| - 1].length
  }

  /** `calc_requared_length`: the byte length a package's structure declares;
      0 when the package has no structure. */
  function CalcRequiredLength(p: Package): nat
  {
    match p.structure
    case None => 0
    case Some(fields) => SumLengths(fields)
  }
}
