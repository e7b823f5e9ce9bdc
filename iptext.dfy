/** `print_ip`: splits a host-order IPv4 address into its four octets with
    shifts and masks and prints them as `b3.b2.b1.b0` followed by a newline.
    The text is given back as a string; a parser of that text stands beside
    it as its inverse. */
module IpText {
  import opened Wire

  /** `(ip >> shift) & 0xFF` on an `unsigned int`. */
  function OctetAt(ip: uint32, shift: nat): (b: byte)
    requires shift in {0, 8, 16, 24}
  {
    var scale := if shift == 0 then 1 else if shift == 8 then 0x100 else if shift == 16 then 0x1_0000 else 0x100_0000;
    ((ip as int / scale) % 0x100) as byte
  }

  /** The octets in the order `print_ip` prints them: `bytes[3]` (the most
      significant) first, `bytes[0]` last. */
  function Octets(ip: uint32): (b: seq<byte>)
    ensures |b| == 4
  {
    [OctetAt(ip, 24), OctetAt(ip, 16), OctetAt(ip, 8), OctetAt(ip, 0)]
  }

  /** The value of four octets read most significant first. */
  function Combine(b: seq<byte>): int
    requires |b| == 4
  {
    b[0] as int * 0x100_0000 + b[1] as int * 0x1_0000 + b[2] as int * 0x100 + b[3] as int
  }

  /** Recombining the printed octets gives back the address. */
  lemma {:induction false} OctetsRecombine(ip: uint32)
    ensures Combine(Octets(ip)) == ip as int
  {
    var x := ip as int;
    var q1, q2, q3 := x / 0x100, x / 0x1_0000, x / 0x100_0000;
    assert x == q1 * 0x100 + x % 0x100;
    assert q2 == q1 / 0x100 by { ShiftTwice(x, 0x100); }
    assert q3 == q2 / 0x100 by { ShiftTwice(x, 0x1_0000); }
    assert q1 == q2 * 0x100 + q1 % 0x100;
    assert q2 == q3 * 0x100 + q2 % 0x100;
    assert q3 < 0x100;
  }

  /** Shifting right by 8 twice is shifting by the sum. */
  lemma ShiftTwice(x: nat, a: nat)
    requires a == 0x100 || a == 0x1_0000
    ensures x / (a * 0x100) == x / a / 0x100
  {
    var q, r := x / a / 0x100, x / a % 0x100;
    assert x / a == q * 0x100 + r;
    if a == 0x100 {
      assert x == q * 0x1_0000 + (r * 0x100 + x % a);
    } else {
      assert x == q * 0x100_0000 + (r * 0x1_0000 + x % a);
    }
  }

  function DigitChar(d: nat): (c: char)
    requires d < 10
    ensures '0' <= c <= '9'
  {
    ('0' as int + d) as char
  }

  predicate IsDigits(s: string)
  {
    forall i :: 0 <= i < |s| ==> '0' <= s[i] <= '9'
  }

  /** `%d` of a non-negative value: its decimal digits without leading zeros. */
  function Decimal(n: nat): (s: string)
    ensures 1 <= |s| && IsDigits(s)
    ensures |s| > 1 ==> s[0] != '0'
    decreases n
  {
    if n < 10 then [DigitChar(n)] else Decimal(n / 10) + [DigitChar(n % 10)]
  }

  /** The value of a string of decimal digits. */
  function DecimalValue(s: string): nat
    requires IsDigits(s)
  {
    if s == [] then 0 else DecimalValue(s[..|s| - 1]) * 10 + (s[|s| - 1] as int - '0' as int)
  }

  lemma {:induction false} DecimalRoundTrip(n: nat)
    ensures DecimalValue(Decimal(n)) == n
    decreases n
  {
    if n >= 10 {
      var s := Decimal(n);
      assert s[..|s| - 1] == Decimal(n / 10);
      DecimalRoundTrip(n / 10);
    }
  }

  /** The line `print_ip(ip)` writes: `printf("%d.%d.%d.%d\n", ...)`. */
  function PrintIp(ip: uint32): string
  {
    var b := Octets(ip);
    Decimal(b[0] as nat) + "." + Decimal(b[1] as nat) + "." + Decimal(b[2] as nat) + "." + Decimal(b[3] as nat) + "\n"
  }

  /** The pieces of `s` between dots. */
  function Fields(s: string): (r: seq<string>)
    ensures |r| >= 1
  {
    if s == [] then [""]
    else if s[0] == '.' then [""] + Fields(s[1..])
    else var rest := Fields(s[1..]); [[s[0]] + rest[0]] + rest[1..]
  }

  lemma {:induction false} FieldsOfDotFree(a: string)
    requires '.' !in a
    ensures Fields(a) == [a]
  {
    if a != [] {
      FieldsOfDotFree(a[1..]);
      assert [a[0]] + a[1..] == a;
    }
  }

  lemma {:induction false} FieldsSplit(a: string, b: string)
    requires '.' !in a
    ensures Fields(a + "." + b) == [a] + Fields(b)
  {
    if a == [] {
      assert a + "." + b == "." + b;
      assert ("." + b)[1..] == b;
    } else {
      var s := a + "." + b;
      assert s[1..] == a[1..] + "." + b;
      FieldsSplit(a[1..], b);
      assert [a[0]] + a[1..] == a;
    }
  }

  /** Reads the text of `print_ip` back: four dot-separated decimal fields of
      at most 255 each, then a newline. */
  function ParseIp(s: string): (r: Option<uint32>)
    ensures r.Some? ==> PrintIpFields(s)
  {
    if |s| == 0 || s[|s| - 1] != '\n' then None
    else
      var f := Fields(s[..|s| - 1]);
      if |f| == 4 && forall k :: 0 <= k < 4 ==> OctetField(f[k]) then
        var v := DecimalValue(f[0]) * 0x100_0000 + DecimalValue(f[1]) * 0x1_0000
               + DecimalValue(f[2]) * 0x100 + DecimalValue(f[3]);
        Some(v as uint32)
      else None
  }

  predicate OctetField(f: string)
  {
    1 <= |f| && IsDigits(f) && DecimalValue(f) < 0x100
  }

  predicate PrintIpFields(s: string)
  {
    |s| > 0 && s[|s| - 1] == '\n' && |Fields(s[..|s| - 1])| == 4
  }

  /** The fields of the printed line are the four decimal octets. */
  lemma PrintIpFieldsAre(ip: uint32)
    ensures var b, s := Octets(ip), PrintIp(ip);
      |s| > 0 && s[|s| - 1] == '\n' &&
      Fields(s[..|s| - 1]) == [Decimal(b[0] as nat), Decimal(b[1] as nat), Decimal(b[2] as nat), Decimal(b[3] as nat)]
  {
    var b := Octets(ip);
    var d0, d1, d2, d3 := Decimal(b[0] as nat), Decimal(b[1] as nat), Decimal(b[2] as nat), Decimal(b[3] as nat);
    var s := PrintIp(ip);
    assert s[..|s| - 1] == d0 + "." + (d1 + "." + (d2 + "." + d3));
    DigitsHaveNoDot(d0); DigitsHaveNoDot(d1); DigitsHaveNoDot(d2); DigitsHaveNoDot(d3);
    FieldsSplit(d0, d1 + "." + (d2 + "." + d3));
    FieldsSplit(d1, d2 + "." + d3);
    FieldsSplit(d2, d3);
    FieldsOfDotFree(d3);
  }

  /** The printed line names the address: parsing it gives `ip` back. */
  lemma PrintIpRoundTrip(ip: uint32)
    ensures ParseIp(PrintIp(ip)) == Some(ip)
  {
    var b := Octets(ip);
    var s := PrintIp(ip);
    PrintIpFieldsAre(ip);
    var f := Fields(s[..|s| - 1]);
    DecimalRoundTrip(b[0] as nat); DecimalRoundTrip(b[1] as nat);
    DecimalRoundTrip(b[2] as nat); DecimalRoundTrip(b[3] as nat);
    assert forall k :: 0 <= k < 4 ==> OctetField(f[k]);
    OctetsRecombine(ip);
  }

  lemma DigitsHaveNoDot(s: string)
    requires IsDigits(s)
    ensures '.' !in s
  {
  }
}
