/** The 6-byte peer address layout `>BBBBH` (`Parser.pack_addr`,
    `Connection.dump_addr`, `Connection.load_addr`): four IPv4 octets, then
    the port as a big-endian 16-bit integer. The host travels as dotted-quad
    text, so this module also holds the text side: `host.split('.')`,
    `int(...)` on each part and `'.'.join(...)`. */
module Address {
  import opened Wrappers
  import opened Codec

  /** (remote_host, remote_port), the identity of a peer. */
  type Addr = (string, int)

  /** struct.calcsize('>BBBBH'). */
  const PackedAddrLength: nat := 6

  predicate IsDigit(c: char) { '0' <= c <= '9' }

  predicate AllDigits(s: string) { forall i :: 0 <= i < |s| ==> IsDigit(s[i]) }

  function DigitValue(c: char): nat
    requires IsDigit(c)
  {
    (c as int) - ('0' as int)
  }

  function DigitChar(d: nat): (c: char)
    requires d < 10
    ensures IsDigit(c) && DigitValue(c) == d
  {
    (('0' as int) + d) as char
  }

  function DecimalValue(s: string): nat
    requires AllDigits(s)
  {
    if s == [] then 0 else DecimalValue(s[..|s| - 1]) * 10 + DigitValue(s[|s| - 1])
  }

  /** Python's `int(text)` on a plain decimal text; anything else is refused
      (the ValueError). */
  function ParseDecimal(s: string): Option<nat>
  {
    if |s| > 0 && AllDigits(s) then Some(DecimalValue(s)) else None
  }

  /** `str(n)`: decimal digits without leading zeros. */
  function FormatDecimal(n: nat): (s: string)
    ensures |s| > 0 && AllDigits(s)
  {
    if n < 10 then [DigitChar(n)] else FormatDecimal(n / 10) + [DigitChar(n % 10)]
  }

  /** `text.split('.')`: always at least one part. */
  function Split(s: string): (parts: seq<string>)
    ensures |parts| >= 1
  {
    if s == [] then [[]]
    else
      var rest := Split(s[1..]);
      if s[0] == '.' then [[]] + rest else [[s[0]] + rest[0]] + rest[1..]
  }

  /** `'.'.join(parts)`. */
  function Join(parts: seq<string>): string
    requires |parts| >= 1
  {
    if |parts| == 1 then parts[0] else parts[0] + "." + Join(parts[1..])
  }

  predicate DotFree(s: string) { forall i :: 0 <= i < |s| ==> s[i] != '.' }

  /** The four octets of a dotted-quad host: four parts, each decimal (a
      non-decimal part is a ValueError, a wrong count a struct.error), each
      below 256 (struct.error for 'B'). */
  function ParseHost(host: string): (r: Result<seq<Byte>>)
    ensures r.Ok? ==> |r.value| == 4
  {
    var parts := Split(host);
    if exists i :: 0 <= i < |parts| && ParseDecimal(parts[i]).None? then Err(BadAddress)
    else if |parts| != 4 then Err(BadAddress)
    else
      var n := seq(4, i requires 0 <= i < 4 => ParseDecimal(parts[i]).value);
      if exists i :: 0 <= i < 4 && n[i] >= 256 then Err(OutOfRange(n[FirstWide(n)]))
      else Ok(seq(4, i requires 0 <= i < 4 => n[i] as Byte))
  }

  function FirstWide(n: seq<nat>): (k: nat)
    requires exists i :: 0 <= i < |n| && n[i] >= 256
    ensures k < |n| && n[k] >= 256
  {
    if n[0] >= 256 then 0 else 1 + FirstWide(n[1..])
  }

  /** The dotted-quad text of four octets. */
  function FormatHost(octets: seq<Byte>): string
    requires |octets| == 4
  {
    Join(seq(4, i requires 0 <= i < 4 => FormatDecimal(octets[i])))
  }

  /** `pack_addr` / `dump_addr`: `struct.pack('>BBBBH', *octets, port)`. */
  function PackAddr(addr: Addr): (r: Result<seq<Byte>>)
    ensures r.Ok? <==> ParseHost(addr.0).Ok? && 0 <= addr.1 < 65536
    ensures r.Ok? ==> |r.value| == PackedAddrLength
  {
    match ParseHost(addr.0)
    case Err(e) => Err(e)
    case Ok(octets) =>
      if 0 <= addr.1 < 65536 then Ok(octets + ToBigEndian(addr.1, 2))
      else Err(OutOfRange(addr.1))
  }

  /** `load_addr` as intended: the octets joined with '.' as decimal text, the
      port read from bytes 4 and 5. As written it calls `'.'.join(map, ip_map)`
      (a TypeError) and returns the port as a one-element tuple. */
  function LoadAddr(data: seq<Byte>): (r: Result<Addr>)
    ensures r.Ok? <==> |data| >= PackedAddrLength
  {
    if |data| < PackedAddrLength then Err(ShortBuffer(PackedAddrLength))
    else Ok((FormatHost(data[..4]), BigEndian(data[4..6])))
  }

  // ---------------------------------------------------------------------
  // Properties

  lemma {:induction false} ParseFormatDecimal(n: nat)
    ensures ParseDecimal(FormatDecimal(n)) == Some(n)
  {
    var s := FormatDecimal(n);
    if n < 10 {
      assert s[..|s| - 1] == [];
    } else {
      ParseFormatDecimal(n / 10);
      assert s[..|s| - 1] == FormatDecimal(n / 10);
      assert DecimalValue(FormatDecimal(n / 10)) == n / 10;
      assert DecimalValue(s) == (n / 10) * 10 + n % 10;
    }
  }

  lemma {:induction false} SplitDotFreePrefix(a: string, t: string)
    requires DotFree(a)
    ensures Split(a + t) == [a + Split(t)[0]] + Split(t)[1..]
  {
    if a == [] {
      assert a + t == t && a + Split(t)[0] == Split(t)[0];
      assert Split(t) == [Split(t)[0]] + Split(t)[1..];
    } else {
      assert (a + t)[0] == a[0] && (a + t)[1..] == a[1..] + t;
      SplitDotFreePrefix(a[1..], t);
      var rest := Split(a[1..] + t);
      assert rest[0] == a[1..] + Split(t)[0] && rest[1..] == Split(t)[1..];
      assert [a[0]] + (a[1..] + Split(t)[0]) == a + Split(t)[0];
    }
  }

  /** Splitting what `Join` produced gives the parts back when no part holds a dot. */
  lemma {:induction false} SplitJoin(parts: seq<string>)
    requires |parts| >= 1
    requires forall i :: 0 <= i < |parts| ==> DotFree(parts[i])
    ensures Split(Join(parts)) == parts
  {
    if |parts| == 1 {
      SplitDotFreePrefix(parts[0], []);
      assert parts[0] + [] == parts[0];
    } else {
      var tail := Join(parts[1..]);
      SplitJoin(parts[1..]);
      assert Split("." + tail) == [[]] + Split(tail);
      SplitDotFreePrefix(parts[0], "." + tail);
      assert parts[0] + "." + tail == parts[0] + ("." + tail);
      assert parts[0] + [] == parts[0];
    }
  }

  lemma FormatDecimalDotFree(n: nat)
    ensures DotFree(FormatDecimal(n))
  {
  }

  /** Every host `FormatHost` writes is read back to the same octets. */
  lemma ParseFormatHost(octets: seq<Byte>)
    requires |octets| == 4
    ensures ParseHost(FormatHost(octets)) == Ok(octets)
  {
    var texts := seq(4, i requires 0 <= i < 4 => FormatDecimal(octets[i]));
    forall i | 0 <= i < 4 ensures DotFree(texts[i]) && ParseDecimal(texts[i]) == Some(octets[i]) {
      FormatDecimalDotFree(octets[i]);
      ParseFormatDecimal(octets[i]);
    }
    SplitJoin(texts);
    var parts := Split(FormatHost(octets));
    assert parts == texts;
    var n := seq(4, i requires 0 <= i < 4 => ParseDecimal(parts[i]).value);
    assert forall i :: 0 <= i < 4 ==> n[i] == octets[i];
    assert seq(4, i requires 0 <= i < 4 => n[i] as Byte) == octets;
  }

  /** `load_addr(dump_addr(c))` gives back a connection's address whenever the
      host is written the canonical way. */
  lemma LoadPackAddr(octets: seq<Byte>, port: int)
    requires |octets| == 4 && 0 <= port < 65536
    ensures PackAddr((FormatHost(octets), port)).Ok?
    ensures LoadAddr(PackAddr((FormatHost(octets), port)).value) == Ok((FormatHost(octets), port))
  {
    ParseFormatHost(octets);
    var bytes := octets + ToBigEndian(port, 2);
    assert bytes[..4] == octets && bytes[4..6] == ToBigEndian(port, 2);
    BigEndianOfToBigEndian(port, 2);
  }

  /** The packed address is the four octets followed by the port, high byte first. */
  lemma PackAddrLayout(addr: Addr)
    requires PackAddr(addr).Ok?
    ensures var b := PackAddr(addr).value;
            b[..4] == ParseHost(addr.0).value && b[4] == addr.1 / 256 && b[5] == addr.1 % 256
  {
    var port := addr.1;
    var t := ToBigEndian(port, 2);
    assert t[..1] == ToBigEndian(port / 256, 1);
    assert ToBigEndian(port / 256, 1) == ToBigEndian(port / 256 / 256, 0) + [port / 256 % 256];
  }
}
