/** Bit markers (`unpack_markers`, `__split_markers`, `__make_mask`,
    `__get_left_shift`): a named run of bits inside a byte field, counted from
    the field's most significant bit (bit 0). The value is
    `(unpack_int(data) & mask) >> shift` with
    `shift = 8 * len(data) - start - length` and `mask = ((1 << length) - 1) << shift`. */
module Markers {
  import opened Wrappers
  import opened Schema
  import Codec

  function Pow2(n: nat): (r: nat)
    ensures r >= 1
  {
    if n == 0 then 1 else 2 * Pow2(n - 1)
  }

  /** Python's `&` on non-negative integers, bit by bit from the lowest. */
  function And(a: nat, b: nat): nat
    decreases a
  {
    if a == 0 || b == 0 then 0
    else 2 * And(a / 2, b / 2) + (if a % 2 == 1 && b % 2 == 1 then 1 else 0)
  }

  /** `a << s`: doubling `s` times. */
  function ShiftLeft(a: nat, s: nat): nat
  {
    if s == 0 then a else 2 * ShiftLeft(a, s - 1)
  }

  /** `a >> s` on a non-negative integer: halving `s` times. */
  function ShiftRight(a: nat, s: nat): nat
  {
    if s == 0 then a else ShiftRight(a / 2, s - 1)
  }

  /** `__get_left_shift`. */
  function LeftShift(startBit: nat, lengthBit: nat, width: nat): nat
    requires startBit + lengthBit <= 8 * width
  {
    8 * width - startBit - lengthBit
  }

  /** `__make_mask`: `length` one-bits shifted up to the marker's place. */
  function MakeMask(startBit: nat, lengthBit: nat, width: nat): (r: nat)
    requires startBit + lengthBit <= 8 * width
    ensures var shift := 8 * width - startBit - lengthBit;
            r % Pow2(shift) == 0 && r / Pow2(shift) == Pow2(lengthBit) - 1
    ensures r < Pow2(8 * width)
  {
    var shift := LeftShift(startBit, lengthBit, width);
    var ones := Pow2(lengthBit) - 1;
    ShiftLeftIsMul(ones, shift);
    DivModUnique(ones * Pow2(shift), Pow2(shift), ones, 0);
    Pow2Add(lengthBit, shift);
    Pow2Monotone(lengthBit + shift, 8 * width);
    ShiftLeft(ones, shift)
  }

  /** `__split_markers`. The mask is computed first, and a negative shift
      count (a marker reaching past the end of the field) is a ValueError; the
      field must then have a struct width for `unpack_int`. */
  function SplitMarker(m: MarkerSpec, data: seq<Codec.Byte>): (r: Result<nat>)
    ensures r.Ok? <==> m.startBit + m.lengthBit <= 8 * |data| && Codec.IsStructWidth(|data|)
    ensures m.startBit + m.lengthBit > 8 * |data| ==> r == Err(NegativeShift)
    ensures m.startBit + m.lengthBit <= 8 * |data| && r.Err? ==> r == Err(UnknownWidth(|data|))
  {
    if m.startBit + m.lengthBit > 8 * |data| then Err(NegativeShift)
    else
      match Codec.UnpackInt(data)
      case Err(e) => Err(e)
      case Ok(x) =>
        Ok(ShiftRight(And(x, MakeMask(m.startBit, m.lengthBit, |data|)), LeftShift(m.startBit, m.lengthBit, |data|)))
  }

  /** `__get_marker_description`: the first marker description with the name. */
  function FindMarker(markers: seq<MarkerSpec>, name: string): (r: Result<MarkerSpec>)
    ensures r.Ok? ==> r.value.name == name &&
                      exists i :: 0 <= i < |markers| && markers[i] == r.value &&
                                  forall j :: 0 <= j < i ==> markers[j].name != name
    ensures r.Err? <==> forall i :: 0 <= i < |markers| ==> markers[i].name != name
    ensures r.Err? ==> r == Err(NoMarker(name))
  {
    if markers == [] then Err(NoMarker(name))
    else if markers[0].name == name then Ok(markers[0])
    else
      var r := FindMarker(markers[1..], name);
      if r.Ok? then
        var i :| 0 <= i < |markers| - 1 && markers[1..][i] == r.value &&
                 forall j :: 0 <= j < i ==> markers[1..][j].name != name;
        assert markers[i + 1] == r.value && forall j :: 0 <= j < i + 1 ==> markers[j].name != name;
        r
      else r
  }

  /** The value of the named marker in a field: look it up, then split. */
  function MarkerValue(markers: seq<MarkerSpec>, name: string, data: seq<Codec.Byte>): Result<nat>
  {
    match FindMarker(markers, name)
    case Err(e) => Err(e)
    case Ok(m) => SplitMarker(m, data)
  }

  // ---------------------------------------------------------------------
  // Arithmetic behind the mask

  lemma {:induction false} MulAtLeast(a: nat, d: nat)
    requires a >= 1
    ensures a * d >= d
  {
    if a > 1 {
      MulAtLeast(a - 1, d);
      assert a * d == (a - 1) * d + d;
    }
  }

  lemma DivModUnique(x: int, d: int, q: int, r: int)
    requires d > 0 && 0 <= r < d && x == q * d + r
    ensures x / d == q && x % d == r
  {
    var q', r' := x / d, x % d;
    assert x == q' * d + r';
    assert (q - q') * d == r' - r;
    if q > q' {
      MulAtLeast(q - q', d);
      assert false;
    } else if q < q' {
      assert (q' - q) * d == r - r';
      MulAtLeast(q' - q, d);
      assert false;
    }
  }

  lemma ModOfDouble(x: nat, p: nat)
    requires p >= 1
    ensures x % (2 * p) == 2 * ((x / 2) % p) + x % 2
    ensures x / (2 * p) == (x / 2) / p
  {
    var q, r := x / 2, x % 2;
    var k, t := q / p, q % p;
    assert x == (2 * p) * k + (2 * t + r);
    DivModUnique(x, 2 * p, k, 2 * t + r);
  }

  lemma AndEven(x: nat, c: nat)
    ensures And(x, 2 * c) == 2 * And(x / 2, c)
  {
    if x != 0 && c != 0 {
      assert (2 * c) % 2 == 0 && (2 * c) / 2 == c;
    }
  }

  lemma AndOdd(x: nat, c: nat)
    ensures And(x, 2 * c + 1) == 2 * And(x / 2, c) + x % 2
  {
    if x != 0 {
      assert (2 * c + 1) % 2 == 1 && (2 * c + 1) / 2 == c;
    }
  }

  /** `x & ((1 << n) - 1)` keeps the low `n` bits. */
  lemma {:induction false} AndLowMask(x: nat, n: nat)
    ensures And(x, Pow2(n) - 1) == x % Pow2(n)
  {
    if n > 0 {
      var p := Pow2(n - 1);
      assert Pow2(n) - 1 == 2 * (p - 1) + 1;
      AndOdd(x, p - 1);
      AndLowMask(x / 2, n - 1);
      ModOfDouble(x, p);
    }
  }

  /** Masking with `m << s` is masking `x >> s` with `m`, shifted back. */
  lemma {:induction false} AndShiftedMask(x: nat, m: nat, s: nat)
    ensures And(x, ShiftLeft(m, s)) == ShiftLeft(And(ShiftRight(x, s), m), s)
  {
    if s > 0 {
      AndEven(x, ShiftLeft(m, s - 1));
      AndShiftedMask(x / 2, m, s - 1);
    }
  }

  lemma {:induction false} ShiftLeftIsMul(a: nat, s: nat)
    ensures ShiftLeft(a, s) == a * Pow2(s)
  {
    if s > 0 {
      ShiftLeftIsMul(a, s - 1);
      assert 2 * (a * Pow2(s - 1)) == a * (2 * Pow2(s - 1));
    }
  }

  lemma {:induction false} Pow2Add(a: nat, b: nat)
    ensures Pow2(a + b) == Pow2(a) * Pow2(b)
  {
    if a > 0 {
      Pow2Add(a - 1, b);
      assert 2 * (Pow2(a - 1) * Pow2(b)) == (2 * Pow2(a - 1)) * Pow2(b);
    }
  }

  lemma {:induction false} Pow2Monotone(a: nat, b: nat)
    requires a <= b
    ensures Pow2(a) <= Pow2(b)
  {
    if a < b {
      Pow2Monotone(a, b - 1);
    }
  }

  lemma {:induction false} ShiftRightLeft(y: nat, s: nat)
    ensures ShiftRight(ShiftLeft(y, s), s) == y
  {
    if s > 0 {
      assert (2 * ShiftLeft(y, s - 1)) / 2 == ShiftLeft(y, s - 1);
      ShiftRightLeft(y, s - 1);
    }
  }

  lemma {:induction false} ShiftRightIsDiv(x: nat, s: nat)
    ensures ShiftRight(x, s) == x / Pow2(s)
  {
    if s > 0 {
      ShiftRightIsDiv(x / 2, s - 1);
      ModOfDouble(x, Pow2(s - 1));
    }
  }

  // ---------------------------------------------------------------------
  // Properties

  /** Masking then shifting takes `length` bits starting `shift` bits up. */
  lemma MaskShiftValue(x: nat, startBit: nat, lengthBit: nat, width: nat)
    requires startBit + lengthBit <= 8 * width
    ensures var shift := LeftShift(startBit, lengthBit, width);
            ShiftRight(And(x, MakeMask(startBit, lengthBit, width)), shift) == (x / Pow2(shift)) % Pow2(lengthBit)
  {
    var shift := LeftShift(startBit, lengthBit, width);
    var low := ShiftRight(x, shift);
    AndShiftedMask(x, Pow2(lengthBit) - 1, shift);
    ShiftRightLeft(And(low, Pow2(lengthBit) - 1), shift);
    AndLowMask(low, lengthBit);
    ShiftRightIsDiv(x, shift);
  }

  /** A marker is the `length` bits that start `start` bits below the field's
      most significant bit; it is always below `2^length`. */
  lemma SplitMarkerValue(m: MarkerSpec, data: seq<Codec.Byte>)
    requires SplitMarker(m, data).Ok?
    ensures var shift := 8 * |data| - m.startBit - m.lengthBit;
            shift >= 0 &&
            SplitMarker(m, data).value == (Codec.BigEndian(data) / Pow2(shift)) % Pow2(m.lengthBit)
    ensures SplitMarker(m, data).value < Pow2(m.lengthBit)
  {
    MaskShiftValue(Codec.BigEndian(data), m.startBit, m.lengthBit, |data|);
  }

  /** Bits 2, 3 and 4 of 0b10110100, counted from the most significant bit,
      are 110, which the mask and shift read as 6. */
  lemma SplitMarkerExample()
    ensures SplitMarker(MarkerSpec("m", "flags", 2, 3), [0xB4]) == Ok(6)
  {
    var m := MarkerSpec("m", "flags", 2, 3);
    assert Codec.BigEndian([0xB4]) == 180 by {
      assert [0xB4][..0] == [];
    }
    SplitMarkerValue(m, [0xB4]);
    assert Pow2(3) == 8;
  }

  /** A marker that covers the whole field reads the field's integer. */
  lemma WholeFieldMarker(m: MarkerSpec, data: seq<Codec.Byte>)
    requires m.startBit == 0 && m.lengthBit == 8 * |data| && Codec.IsStructWidth(|data|)
    ensures SplitMarker(m, data) == Ok(Codec.BigEndian(data))
  {
    var x := Codec.BigEndian(data);
    SplitMarkerValue(m, data);
    BitsBytes(|data|);
    assert Pow2(0) == 1 && x / 1 == x;
    assert x < Pow2(m.lengthBit);
    DivModUnique(x, Pow2(m.lengthBit), 0, x);
  }

  lemma {:induction false} BitsBytes(n: nat)
    ensures Pow2(8 * n) == Codec.Pow256(n)
  {
    if n > 0 {
      BitsBytes(n - 1);
      var k := 8 * (n - 1);
      assert Pow2(k + 8) == 256 * Pow2(k) by {
        assert Pow2(k + 8) == 2 * Pow2(k + 7);
        assert Pow2(k + 7) == 2 * Pow2(k + 6);
        assert Pow2(k + 6) == 2 * Pow2(k + 5);
        assert Pow2(k + 5) == 2 * Pow2(k + 4);
        assert Pow2(k + 4) == 2 * Pow2(k + 3);
        assert Pow2(k + 3) == 2 * Pow2(k + 2);
        assert Pow2(k + 2) == 2 * Pow2(k + 1);
        assert Pow2(k + 1) == 2 * Pow2(k);
      }
    }
  }
}
