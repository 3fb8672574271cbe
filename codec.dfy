/** The primitive codecs of `Parser`: big-endian unsigned integers of the
    struct widths 1, 2, 4 and 8 (`unpack_int`, `pack_int`), the one-byte
    boolean (`pack_bool`, `unpack_bool_marker`) and the 4-byte timestamp. */
module Codec {
  import opened Wrappers

  type Byte = b: int | 0 <= b < 256

  function Min(a: int, b: int): int { if a < b then a else b }

  function Pow256(n: nat): (r: nat)
    ensures r >= 1
  {
    if n == 0 then 1 else 256 * Pow256(n - 1)
  }

  /** The unsigned integer a byte string spells, most significant byte first. */
  function BigEndian(s: seq<Byte>): (r: nat)
    ensures r < Pow256(|s|)
  {
    if s == [] then 0
    else
      var p := BigEndian(s[..|s| - 1]);
      assert p <= Pow256(|s| - 1) - 1;
      assert p * 256 <= Pow256(|s| - 1) * 256 - 256;
      p * 256 + s[|s| - 1]
  }

  /** The `w`-byte big-endian spelling of `v`. */
  function ToBigEndian(v: nat, w: nat): (r: seq<Byte>)
    requires v < Pow256(w)
    ensures |r| == w
  {
    if w == 0 then [] else ToBigEndian(v / 256, w - 1) + [v % 256]
  }

  /** The widths `struct_length` knows: 'B', 'H', 'I', 'Q'. */
  predicate IsStructWidth(w: int) { w == 1 || w == 2 || w == 4 || w == 8 }

  /** `unpack_int`: the width is the buffer's length; any other width than
      1, 2, 4 or 8 has no format letter (KeyError). */
  function UnpackInt(data: seq<Byte>): (r: Result<nat>)
    ensures r.Ok? <==> IsStructWidth(|data|)
    ensures r.Ok? ==> r.value < Pow256(|data|)
  {
    if IsStructWidth(|data|) then Ok(BigEndian(data)) else Err(UnknownWidth(|data|))
  }

  /** `pack_int`: an unknown width fails first (KeyError), then a value the
      unsigned format cannot hold (struct.error). */
  function PackInt(v: int, size: int): (r: Result<seq<Byte>>)
    ensures r.Ok? <==> IsStructWidth(size) && 0 <= v < Pow256(size)
    ensures r.Ok? ==> |r.value| == size
    ensures !IsStructWidth(size) ==> r == Err(UnknownWidth(size))
  {
    if !IsStructWidth(size) then Err(UnknownWidth(size))
    else if !(0 <= v < Pow256(size)) then Err(OutOfRange(v))
    else Ok(ToBigEndian(v, size))
  }

  /** `pack_timestemp`, with the clock reading passed in: four bytes, so it
      fails once the clock reaches 2^32 seconds. */
  function PackTimestamp(now: int): (r: Result<seq<Byte>>)
    ensures r.Ok? <==> 0 <= now < Pow256(4)
    ensures r.Ok? ==> |r.value| == 4 && BigEndian(r.value) == now
  {
    var r := PackInt(now, 4);
    if r.Ok? then BigEndianOfToBigEndian(now, 4); r else r
  }

  function PackBool(b: bool): (r: seq<Byte>)
    ensures |r| == 1 && (r[0] == 1 <==> b) && (r[0] == 0 <==> !b)
  {
    if b then [1] else [0]
  }

  /** `unpack_bool_marker` as intended: the field is the single byte 0x01. */
  predicate UnpackBoolMarker(data: seq<Byte>): (r: bool)
    ensures r <==> data == PackBool(true)
    ensures data == PackBool(false) ==> !r
  {
    data == [1]
  }

  /** `unpack_bool_marker` as written: it compares a `bytes` value with the
      integer 1, which Python 3 never finds equal. */
  predicate UnpackBoolMarkerAsWritten(data: seq<Byte>): (r: bool)
    ensures data == PackBool(true) ==> !r
  {
    false
  }

  // ---------------------------------------------------------------------
  // Properties

  /** Big-endian order: the first byte is the most significant one. */
  lemma {:induction false} BigEndianLeadingByte(s: seq<Byte>)
    requires |s| > 0
    ensures BigEndian(s) == s[0] * Pow256(|s| - 1) + BigEndian(s[1..])
  {
    if |s| == 1 {
      assert s[..0] == [] && s[1..] == [];
    } else {
      var init := s[..|s| - 1];
      BigEndianLeadingByte(init);
      assert init[0] == s[0];
      assert init[1..] == s[1..][..|s| - 2];
      var p, x, y := Pow256(|s| - 2), BigEndian(init[1..]), s[|s| - 1];
      assert BigEndian(s) == BigEndian(init) * 256 + y;
      assert BigEndian(init) == s[0] * p + x;
      assert BigEndian(s[1..]) == x * 256 + y by {
        assert s[1..][..|s| - 2] == init[1..] && s[1..][|s| - 2] == y;
      }
      assert Pow256(|s| - 1) == p * 256;
      ShiftByte(s[0], p, x, y);
    }
  }

  /** One more byte below: `(a·p + x)·256 + y == a·(p·256) + (x·256 + y)`. */
  lemma ShiftByte(a: int, p: int, x: int, y: int)
    ensures (a * p + x) * 256 + y == a * (p * 256) + (x * 256 + y)
  {
  }

  lemma {:induction false} BigEndianOfToBigEndian(v: nat, w: nat)
    requires v < Pow256(w)
    ensures BigEndian(ToBigEndian(v, w)) == v
  {
    if w > 0 {
      var r := ToBigEndian(v, w);
      assert r[..w - 1] == ToBigEndian(v / 256, w - 1);
      BigEndianOfToBigEndian(v / 256, w - 1);
    }
  }

  lemma {:induction false} ToBigEndianOfBigEndian(s: seq<Byte>)
    ensures ToBigEndian(BigEndian(s), |s|) == s
  {
    if s != [] {
      var init := s[..|s| - 1];
      var v := BigEndian(s);
      assert v / 256 == BigEndian(init) && v % 256 == s[|s| - 1];
      ToBigEndianOfBigEndian(init);
    }
  }

  /** `unpack_int(pack_int(v, w)) == v` for every width and every value the
      width holds; any other width or value is refused by `pack_int`. */
  lemma UnpackPackInt(v: int, w: int)
    ensures PackInt(v, w).Ok? <==> IsStructWidth(w) && 0 <= v < Pow256(w)
    ensures PackInt(v, w).Ok? ==> UnpackInt(PackInt(v, w).value) == Ok(v)
  {
    if PackInt(v, w).Ok? { BigEndianOfToBigEndian(v, w); }
  }

  /** `pack_int(unpack_int(d), len(d)) == d`: decoding loses nothing. */
  lemma PackUnpackInt(data: seq<Byte>)
    requires UnpackInt(data).Ok?
    ensures PackInt(UnpackInt(data).value, |data|) == Ok(data)
  {
    ToBigEndianOfBigEndian(data);
  }

  /** The boolean byte round-trips through the intended decoder. */
  lemma BoolRoundTrip(b: bool)
    ensures UnpackBoolMarker(PackBool(b)) == b
  {
  }

  /** The decoder as written reads the packed `true` back as false. */
  lemma BoolMarkerAsWrittenLosesTrue()
    ensures PackBool(true) == [1] && !UnpackBoolMarkerAsWritten(PackBool(true))
  {
  }
}
