/** How UUIDs are printed, and that the order of the printed text is their own. */
module Uuids {
  import opened Common
  import opened Normalise
  import opened Sorting

  predicate IsHexDigit(c: char) { '0' <= c <= '9' || 'a' <= c <= 'f' }

  function HexDigit(d: nat): (c: char)
    requires d < 16
    ensures IsHexDigit(c)
  {
    if d < 10 then '0' + d as char else 'a' + (d - 10) as char
  }

  /** The last `width` hexadecimal digits. */
  function Hex(n: nat, width: nat): (text: string)
    ensures |text| == width && forall c | c in text :: IsHexDigit(c)
  {
    if width == 0 then "" else Hex(n / 16, width - 1) + [HexDigit(n % 16)]
  }

  /** A UUID as it is printed: 32 digits in five groups. */
  function UuidText(id: Id): (text: string)
    ensures |text| == 36 && forall c | c in text :: IsHexDigit(c) || c == '-'
    ensures IsHexDigit(text[35])
  {
    var digits := Hex(id, 32);
    digits[..8] + "-" + digits[8..12] + "-" + digits[12..16] + "-" + digits[16..20] + "-" + digits[20..]
  }

  function Pow16(width: nat): nat {
    if width == 0 then 1 else 16 * Pow16(width - 1)
  }

  /** A UUID is a number of 128 bits. */
  predicate IsUuid(id: Id) {
    id < Pow16(32)
  }

  // ---------------------------------------------------------------------------------------------
  // The order of the text
  // ---------------------------------------------------------------------------------------------

  /** Texts are compared by their first parts, and by the rest when those are equal. */
  lemma {:induction false} TextInParts(a: string, b: string, x: string, y: string)
    requires |a| == |b|
    ensures TextAtMost(a + x, b + y) <==> if a == b then TextAtMost(x, y) else TextAtMost(a, b)
    decreases |a|
  {
    if a == [] {
      assert a + x == x && b + y == y;
    } else {
      assert (a + x)[1..] == a[1..] + x && (b + y)[1..] == b[1..] + y;
      assert a == [a[0]] + a[1..] && b == [b[0]] + b[1..];
      TextInParts(a[1..], b[1..], x, y);
    }
  }

  lemma OneCharacter(c: char, d: char)
    ensures TextAtMost([c], [d]) <==> c <= d
  {
    assert [c][1..] == [] && [d][1..] == [];
  }

  lemma {:induction false} HexOrder(m: nat, n: nat, width: nat)
    requires m < Pow16(width) && n < Pow16(width)
    ensures TextAtMost(Hex(m, width), Hex(n, width)) <==> m <= n
    ensures Hex(m, width) == Hex(n, width) <==> m == n
  {
    if width > 0 {
      var a, b := Hex(m / 16, width - 1), Hex(n / 16, width - 1);
      var c, d := HexDigit(m % 16), HexDigit(n % 16);
      HexOrder(m / 16, n / 16, width - 1);
      TextInParts(a, b, [c], [d]);
      OneCharacter(c, d);
      assert Hex(m, width)[..width - 1] == a && Hex(n, width)[..width - 1] == b;
      assert Hex(m, width)[width - 1] == c && Hex(n, width)[width - 1] == d;
    }
  }

  /** A dash at the same place of both texts makes no difference. */
  lemma DashKeepsOrder(a: string, b: string, x: string, y: string)
    requires |a| == |b|
    ensures TextAtMost(a + "-" + x, b + "-" + y) <==> TextAtMost(a + x, b + y)
  {
    assert a + "-" + x == a + ("-" + x) && b + "-" + y == b + ("-" + y);
    TextInParts(a, b, "-" + x, "-" + y);
    TextInParts("-", "-", x, y);
    TextInParts(a, b, x, y);
  }

  lemma DashesKeepOrder(h: string, k: string)
    requires |h| == |k| == 32
    ensures var dashed := (d: string) requires |d| == 32 =>
              d[..8] + "-" + d[8..12] + "-" + d[12..16] + "-" + d[16..20] + "-" + d[20..];
            TextAtMost(dashed(h), dashed(k)) <==> TextAtMost(h, k)
  {
    var a, b := h[..8] + "-" + h[8..12] + "-" + h[12..16], k[..8] + "-" + k[8..12] + "-" + k[12..16];
    DashKeepsOrder(a + "-" + h[16..20], b + "-" + k[16..20], h[20..], k[20..]);
    assert (a + "-" + h[16..20]) + h[20..] == a + "-" + h[16..] && (b + "-" + k[16..20]) + k[20..] == b + "-" + k[16..];
    DashKeepsOrder(a, b, h[16..], k[16..]);
    assert a + h[16..] == h[..8] + "-" + h[8..12] + "-" + h[12..];
    assert b + k[16..] == k[..8] + "-" + k[8..12] + "-" + k[12..];
    DashKeepsOrder(h[..8] + "-" + h[8..12], k[..8] + "-" + k[8..12], h[12..], k[12..]);
    assert (h[..8] + "-" + h[8..12]) + h[12..] == h[..8] + "-" + h[8..];
    assert (k[..8] + "-" + k[8..12]) + k[12..] == k[..8] + "-" + k[8..];
    DashKeepsOrder(h[..8], k[..8], h[8..], k[8..]);
    assert h[..8] + h[8..] == h && k[..8] + k[8..] == k;
  }

  /** Printed UUIDs sort as the UUIDs do, and different UUIDs are printed differently. */
  lemma UuidTextOrder(m: Id, n: Id)
    requires IsUuid(m) && IsUuid(n)
    ensures TextAtMost(UuidText(m), UuidText(n)) <==> m <= n
    ensures UuidText(m) == UuidText(n) <==> m == n
  {
    HexOrder(m, n, 32);
    HexOrder(n, m, 32);
    DashesKeepOrder(Hex(m, 32), Hex(n, 32));
    DashesKeepOrder(Hex(n, 32), Hex(m, 32));
    TextTotal(UuidText(m), UuidText(n));
  }
}
