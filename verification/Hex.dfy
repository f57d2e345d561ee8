/** The text form of object ids: `crates/agentstategraph-core/src/object.rs`, lines 36-85. */
module Hex {
  import opened Order
  import opened Objects

  const ID_BYTES: nat := 32

  // ----- digits

  predicate IsHexDigit(c: char) {
    '0' <= c <= '9' || 'a' <= c <= 'f' || 'A' <= c <= 'F'
  }

  function HexValue(c: char): (n: nat)
    requires IsHexDigit(c)
    ensures n < 16
  {
    if '0' <= c <= '9' then c as int - '0' as int
    else if 'a' <= c <= 'f' then c as int - 'a' as int + 10
    else c as int - 'A' as int + 10
  }

  function HexChar(n: nat): (c: char)
    requires n < 16
    ensures IsHexDigit(c) && HexValue(c) == n && Lower(c) == c
  {
    if n < 10 then ('0' as int + n) as char else ('a' as int + n - 10) as char
  }

  /** `to_ascii_lowercase` of one character. */
  function Lower(c: char): char {
    if 'A' <= c <= 'Z' then (c as int - 'A' as int + 'a' as int) as char else c
  }

  lemma LowerIsDigitOfValue(c: char)
    requires IsHexDigit(c)
    ensures HexChar(HexValue(c)) == Lower(c)
  {
  }

  predicate AllHex(s: string) {
    forall i :: 0 <= i < |s| ==> IsHexDigit(s[i])
  }

  // ----- printing

  /** Two lowercase digits a byte. */
  function ToHex(bytes: seq<byte>): (s: string)
    ensures |s| == 2 * |bytes| && AllHex(s)
    ensures forall i :: 0 <= i < |bytes| ==>
      s[2 * i] == HexChar(bytes[i] / 16) && s[2 * i + 1] == HexChar(bytes[i] % 16)
  {
    if bytes == [] then []
    else
      var n := |bytes| - 1;
      ToHex(bytes[..n]) + [HexChar(bytes[n] / 16), HexChar(bytes[n] % 16)]
  }

  function Show(id: ObjectId): string {
    "sg_" + ToHex(id.bytes)
  }

  // ----- reading

  /** `char::is_whitespace`: the White_Space property of Unicode. */
  predicate IsWhitespace(c: char) {
    var n := c as int;
    || 0x09 <= n <= 0x0D || n == 0x20 || n == 0x85 || n == 0xA0 || n == 0x1680
    || 0x2000 <= n <= 0x200A || n == 0x2028 || n == 0x2029 || n == 0x202F || n == 0x205F || n == 0x3000
  }

  const ASCII_SPACES: set<int> := {9, 10, 11, 12, 13, 32}

  const OTHER_SPACES: set<int> := {
    0x85, 0xA0, 0x1680, 0x2000, 0x2001, 0x2002, 0x2003, 0x2004, 0x2005, 0x2006, 0x2007, 0x2008, 0x2009,
    0x200A, 0x2028, 0x2029, 0x202F, 0x205F, 0x3000}

  /** The 25 code points that `trim` drops. */
  lemma Spaces(c: char)
    ensures IsWhitespace(c) <==> c as int in ASCII_SPACES || c as int in OTHER_SPACES
  {
  }

  function TrimStart(s: string): string {
    if s != [] && IsWhitespace(s[0]) then TrimStart(s[1..]) else s
  }

  function TrimEnd(s: string): string {
    if s != [] && IsWhitespace(s[|s| - 1]) then TrimEnd(s[..|s| - 1]) else s
  }

  function Trim(s: string): string {
    TrimEnd(TrimStart(s))
  }

  /** The input without surrounding whitespace and without one `sg_` in front. */
  function Fragment(s: string): string {
    var t := Trim(s);
    if "sg_" <= t then t[3..] else t
  }

  function Pairs(s: string, n: nat): (r: seq<byte>)
    requires AllHex(s) && 2 * n <= |s|
    ensures |r| == n
    ensures forall i :: 0 <= i < n ==> r[i] == HexValue(s[2 * i]) * 16 + HexValue(s[2 * i + 1])
  {
    if n == 0 then [] else Pairs(s, n - 1) + [HexValue(s[2 * n - 2]) * 16 + HexValue(s[2 * n - 1])]
  }

  /** `ObjectId::from_hex`. A character that is not one byte long is not a hex digit either. */
  function FromHex(s: string): Option<ObjectId> {
    var hex := Fragment(s);
    if |hex| != 2 * ID_BYTES || !AllHex(hex) then None
    else Some(ObjectId(Pairs(hex, ID_BYTES)))
  }

  /** The loop that fills the byte array. */
  method ReadHex(s: string) returns (id: Option<ObjectId>)
    ensures id == FromHex(s)
  {
    var hex := Fragment(s);
    if |hex| != 2 * ID_BYTES || !AllHex(hex) {
      return None;
    }
    var bytes := new byte[ID_BYTES](_ => 0);
    for i := 0 to ID_BYTES
      invariant bytes[..i] == Pairs(hex, i)
    {
      var hi, lo := HexValue(hex[2 * i]), HexValue(hex[2 * i + 1]);
      bytes[i] := hi * 16 + lo;
      assert bytes[..i + 1] == bytes[..i] + [bytes[i]];
    }
    assert bytes[..] == bytes[..ID_BYTES];
    return Some(ObjectId(bytes[..]));
  }

  function LowerAll(s: string): (r: string)
    ensures |r| == |s| && forall i :: 0 <= i < |s| ==> r[i] == Lower(s[i])
  {
    seq(|s|, i requires 0 <= i < |s| => Lower(s[i]))
  }

  /** `ObjectId::normalize_hex_prefix`. */
  function NormalizeHexPrefix(s: string): Option<string> {
    var fragment := Fragment(s);
    if fragment == [] || !AllHex(fragment) then None else Some(LowerAll(fragment))
  }

  // ----- round trips

  lemma HexIsNotSpace(c: char)
    requires IsHexDigit(c)
    ensures !IsWhitespace(c)
  {
  }

  lemma Nibbles(b: byte)
    ensures HexValue(HexChar(b / 16)) * 16 + HexValue(HexChar(b % 16)) == b
  {
  }

  lemma {:induction false} PairsOfHex(bytes: seq<byte>)
    ensures Pairs(ToHex(bytes), |bytes|) == bytes
  {
    var s, r := ToHex(bytes), Pairs(ToHex(bytes), |bytes|);
    forall i | 0 <= i < |bytes| ensures r[i] == bytes[i] {
      Nibbles(bytes[i]);
      assert s[2 * i] == HexChar(bytes[i] / 16);
    }
  }

  predicate AllSpace(s: string) {
    forall i :: 0 <= i < |s| ==> IsWhitespace(s[i])
  }

  lemma {:induction false} TrimStartDrops(pre: string, s: string)
    requires AllSpace(pre) && s != [] && !IsWhitespace(s[0])
    ensures TrimStart(pre + s) == s
  {
    if pre == [] {
      assert pre + s == s;
    } else {
      assert (pre + s)[1..] == pre[1..] + s;
      TrimStartDrops(pre[1..], s);
    }
  }

  lemma {:induction false} TrimEndDrops(s: string, post: string)
    requires AllSpace(post) && s != [] && !IsWhitespace(s[|s| - 1])
    ensures TrimEnd(s + post) == s
  {
    if post == [] {
      assert s + post == s;
    } else {
      var n := |post| - 1;
      assert (s + post)[..|s| + n] == s + post[..n];
      TrimEndDrops(s, post[..n]);
    }
  }

  lemma TrimPadded(pre: string, s: string, post: string)
    requires AllSpace(pre) && AllSpace(post) && s != [] && !IsWhitespace(s[0]) && !IsWhitespace(s[|s| - 1])
    ensures Trim(pre + s + post) == s
  {
    assert pre + s + post == pre + (s + post);
    assert (s + post)[0] == s[0];
    TrimStartDrops(pre, s + post);
    TrimEndDrops(s, post);
  }

  /** Both printed forms read back, with any whitespace around them. */
  lemma FromHexUndoesPrinting(id: ObjectId, pre: string, post: string)
    requires |id.bytes| == ID_BYTES && AllSpace(pre) && AllSpace(post)
    ensures FromHex(pre + ToHex(id.bytes) + post) == Some(id)
    ensures FromHex(pre + Show(id) + post) == Some(id)
    ensures Show(id) == "sg_" + ToHex(id.bytes)
  {
    PlainFragment(id, pre, post);
    ShownFragment(id, pre, post);
    PairsOfHex(id.bytes);
  }

  lemma PlainFragment(id: ObjectId, pre: string, post: string)
    requires id.bytes != [] && AllSpace(pre) && AllSpace(post)
    ensures Fragment(pre + ToHex(id.bytes) + post) == ToHex(id.bytes)
  {
    var hex := ToHex(id.bytes);
    HexIsNotSpace(hex[0]);
    HexIsNotSpace(hex[|hex| - 1]);
    TrimPadded(pre, hex, post);
    assert hex[0] != 's';
  }

  lemma ShownFragment(id: ObjectId, pre: string, post: string)
    requires id.bytes != [] && AllSpace(pre) && AllSpace(post)
    ensures Fragment(pre + Show(id) + post) == ToHex(id.bytes)
  {
    var hex, shown := ToHex(id.bytes), Show(id);
    HexIsNotSpace(hex[|hex| - 1]);
    assert shown[0] == 's' && shown[|shown| - 1] == hex[|hex| - 1];
    TrimPadded(pre, shown, post);
    assert shown[3..] == hex;
  }

  /** Printing what was read gives the normalised input. */
  lemma ReprintIsNormalised(s: string)
    requires FromHex(s).Some?
    ensures |FromHex(s).value.bytes| == ID_BYTES
    ensures NormalizeHexPrefix(s) == Some(ToHex(FromHex(s).value.bytes))
  {
    var hex := Fragment(s);
    var bytes := Pairs(hex, ID_BYTES);
    var printed := ToHex(bytes);
    forall i | 0 <= i < |hex| ensures printed[i] == Lower(hex[i]) {
      var j := i / 2;
      LowerIsDigitOfValue(hex[2 * j]);
      LowerIsDigitOfValue(hex[2 * j + 1]);
      assert bytes[j] / 16 == HexValue(hex[2 * j]) && bytes[j] % 16 == HexValue(hex[2 * j + 1]);
      assert i == 2 * j || i == 2 * j + 1;
    }
    assert printed == LowerAll(hex);
  }

  /** A full id is read exactly when the normalised fragment has 64 digits. */
  lemma ReadsFullFragments(s: string)
    ensures FromHex(s).Some? <==> NormalizeHexPrefix(s).Some? && |NormalizeHexPrefix(s).value| == 64
  {
  }

  // ----- digits stand in their order

  lemma HexCharOrder(m: nat, n: nat)
    requires m < 16 && n < 16
    ensures HexChar(m) as int < HexChar(n) as int <==> m < n
  {
  }

  function HexPair(x: byte): string {
    [HexChar(x / 16), HexChar(x % 16)]
  }

  lemma ToHexLast(bytes: seq<byte>)
    requires bytes != []
    ensures ToHex(bytes) == ToHex(bytes[..|bytes| - 1]) + HexPair(bytes[|bytes| - 1])
  {
  }

  lemma {:induction false} ToHexFirst(bytes: seq<byte>)
    requires bytes != []
    ensures ToHex(bytes) == HexPair(bytes[0]) + ToHex(bytes[1..])
  {
    var n := |bytes| - 1;
    ToHexLast(bytes);
    if n == 0 {
      assert ToHex(bytes[..0]) == "" == ToHex(bytes[1..]);
    } else {
      ToHexFirst(bytes[..n]);
      ToHexLast(bytes[1..]);
      assert bytes[..n][1..] == bytes[1..][..n - 1] && bytes[1..][n - 1] == bytes[n];
      Assoc(HexPair(bytes[0]), ToHex(bytes[1..][..n - 1]), HexPair(bytes[n]));
    }
  }

  lemma LexStep(x: int, y: int, a: seq<int>, b: seq<int>)
    ensures LexLeq([x] + a, [y] + b) <==> x < y || (x == y && LexLeq(a, b))
  {
    assert ([x] + a)[1..] == a && ([y] + b)[1..] == b;
  }

  lemma CodesFirst(hi: char, lo: char, s: string)
    ensures Codes([hi, lo] + s) == [hi as int] + ([lo as int] + Codes(s))
  {
  }

  /** The text of ids sorts as the ids do. */
  lemma {:induction false} HexKeepsOrder(a: seq<byte>, b: seq<byte>)
    requires |a| == |b|
    ensures LexLeq(a, b) <==> StringLeq(ToHex(a), ToHex(b))
  {
    if a != [] {
      HexKeepsOrder(a[1..], b[1..]);
      ToHexFirst(a);
      ToHexFirst(b);
      var h, l, m, n := HexChar(a[0] / 16), HexChar(a[0] % 16), HexChar(b[0] / 16), HexChar(b[0] % 16);
      CodesFirst(h, l, ToHex(a[1..]));
      CodesFirst(m, n, ToHex(b[1..]));
      LexStep(h as int, m as int, [l as int] + Codes(ToHex(a[1..])), [n as int] + Codes(ToHex(b[1..])));
      LexStep(l as int, n as int, Codes(ToHex(a[1..])), Codes(ToHex(b[1..])));
      NibbleOrder(a[0], b[0]);
    }
  }

  lemma NibbleOrder(x: byte, y: byte)
    ensures var p, q := HexPair(x), HexPair(y);
      && (x < y <==> p[0] < q[0] || (p[0] == q[0] && p[1] < q[1]))
      && (x == y <==> p == q)
  {
    HexCharOrder(x / 16, y / 16);
    HexCharOrder(y / 16, x / 16);
    HexCharOrder(x % 16, y % 16);
    HexCharOrder(y % 16, x % 16);
  }
}
