/**
 * Document identifiers. A user's `_id` is a byte string; `toString()` renders
 * it as lower-case hexadecimal, two digits per byte. That rendering is the
 * `sub` claim of every issued token and the `id` of every identity response.
 */
module ObjectIds {
  import opened Wrappers

  newtype byte = x: int | 0 <= x < 256

  datatype ObjectId = ObjectId(bytes: seq<byte>)

  function HexDigit(n: int): (c: char)
    requires 0 <= n < 16
  {
    if n < 10 then (48 + n) as char else (87 + n) as char
  }

  /** The value of a lower-case hexadecimal digit, or `None` for any other character. */
  function DigitValue(c: char): (r: Option<int>)
    ensures r.Some? ==> 0 <= r.value < 16 && HexDigit(r.value) == c
  {
    if '0' <= c <= '9' then Some(c as int - 48)
    else if 'a' <= c <= 'f' then Some(c as int - 87)
    else None
  }

  /** Hexadecimal rendering of a byte string: two lower-case digits per byte. */
  function ToHex(bs: seq<byte>): (s: string)
    ensures |s| == 2 * |bs|
    ensures forall i :: 0 <= i < |s| ==> DigitValue(s[i]).Some?
  {
    if bs == [] then []
    else [HexDigit(bs[0] as int / 16), HexDigit(bs[0] as int % 16)] + ToHex(bs[1..])
  }

  /** Reads a hexadecimal rendering back; `None` on an odd length or a non-digit. */
  function ParseHex(s: string): (r: Option<seq<byte>>)
    ensures r.Some? ==> 2 * |r.value| == |s|
  {
    if s == [] then Some([])
    else if |s| == 1 then None
    else match (DigitValue(s[0]), DigitValue(s[1]), ParseHex(s[2..]))
      case (Some(hi), Some(lo), Some(rest)) => Some([(hi * 16 + lo) as byte] + rest)
      case _ => None
  }

  /** `id.toString()`. */
  function IdString(id: ObjectId): (s: string) {
    ToHex(id.bytes)
  }

  lemma DigitRoundTrip(n: int)
    requires 0 <= n < 16
    ensures DigitValue(HexDigit(n)) == Some(n)
  {
  }

  /** Parsing undoes rendering. */
  lemma {:induction false} ParseToHex(bs: seq<byte>)
    ensures ParseHex(ToHex(bs)) == Some(bs)
  {
    if bs != [] {
      var b := bs[0] as int;
      DigitRoundTrip(b / 16);
      DigitRoundTrip(b % 16);
      var s := ToHex(bs);
      assert s[2..] == ToHex(bs[1..]);
      ParseToHex(bs[1..]);
      assert [(b / 16 * 16 + b % 16) as byte] + bs[1..] == bs;
    }
  }

  /** Distinct identifiers render to distinct strings, so a `sub` claim names one user. */
  lemma IdStringInjective(a: ObjectId, b: ObjectId)
    ensures IdString(a) == IdString(b) <==> a == b
  {
    ParseToHex(a.bytes);
    ParseToHex(b.bytes);
  }
}
