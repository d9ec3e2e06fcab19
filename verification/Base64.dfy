/** Base64 as in section 4 of RFC 4648, with strict decoding (app/utils/base64_utils.py). */
module Base64 {
  import opened Basics

  function Symbol(v: int): char
    requires 0 <= v < 64
  {
    if v < 26 then ('A' as int + v) as char
    else if v < 52 then ('a' as int + v - 26) as char
    else if v < 62 then ('0' as int + v - 52) as char
    else if v == 62 then '+'
    else '/'
  }

  /** The position of `c` in the alphabet, searching from `v`. */
  function Search(c: char, v: nat): (r: Option<int>)
    ensures r.Some? ==> v <= r.value < 64
    decreases 64 - v
  {
    if v >= 64 then None else if Symbol(v) == c then Some(v) else Search(c, v + 1)
  }

  function Value(c: char): (v: Option<int>)
    ensures v.Some? ==> 0 <= v.value < 64
  {
    Search(c, 0)
  }

  lemma SymbolsDiffer(v: int, w: int)
    requires 0 <= v < w < 64
    ensures Symbol(v) != Symbol(w)
  {
  }

  lemma {:induction false} SearchFinds(v: nat, from: nat)
    requires from <= v < 64
    ensures Search(Symbol(v), from) == Some(v)
    decreases v - from
  {
    if from < v {
      SymbolsDiffer(from, v);
      SearchFinds(v, from + 1);
    }
  }

  lemma {:induction false} PaddingHasNoValue(from: nat)
    ensures Search('=', from) == None
    decreases 64 - from
  {
    if from < 64 {
      PaddingHasNoValue(from + 1);
    }
  }

  /** Three bytes as four symbols. */
  function Group(x: Byte, y: Byte, z: Byte): string {
    [Symbol(x / 4), Symbol(x % 4 * 16 + y / 16), Symbol(y % 16 * 4 + z / 64), Symbol(z % 64)]
  }

  function B64e(b: Bytes): string {
    if b == [] then ""
    else if |b| == 1 then [Symbol(b[0] / 4), Symbol(b[0] % 4 * 16), '=', '=']
    else if |b| == 2 then
      [Symbol(b[0] / 4), Symbol(b[0] % 4 * 16 + b[1] / 16), Symbol(b[1] % 16 * 4), '=']
    else
      Group(b[0], b[1], b[2]) + B64e(b[3..])
  }

  /** Decoding ignores the unused low bits before padding, so one byte string has several spellings. */
  function B64d(s: string): Option<Bytes> {
    if s == "" then Some([])
    else if |s| < 4 then None
    else
      match (Value(s[0]), Value(s[1]), Value(s[2]), Value(s[3]))
      case (Some(p), Some(q), Some(r), Some(t)) =>
        (match B64d(s[4..])
         case None => None
         case Some(rest) => Some([p * 4 + q / 16, q % 16 * 16 + r / 4, r % 4 * 64 + t] + rest))
      case (Some(p), Some(q), Some(r), None) =>
        if s[3..] == "=" then Some([p * 4 + q / 16, q % 16 * 16 + r / 4]) else None
      case (Some(p), Some(q), None, None) =>
        if s[2..] == "==" then Some([p * 4 + q / 16]) else None
      case _ => None
  }

  /** `b64d(text, code)`: the bytes, or an AppError with the given code. */
  function Decode(text: string, code: Error): Result<Bytes> {
    match B64d(text)
    case None => Err(code)
    case Some(b) => Ok(b)
  }

  /** Regrouping three bytes as four sextets loses nothing. */
  lemma Sextets(x: Byte, y: Byte, z: Byte)
    ensures x / 4 * 4 + (x % 4 * 16 + y / 16) / 16 == x
    ensures (x % 4 * 16 + y / 16) % 16 * 16 + (y % 16 * 4 + z / 64) / 4 == y
    ensures (y % 16 * 4 + z / 64) % 4 * 64 + z % 64 == z
  {
  }

  lemma FullGroup(s: string, p: int, q: int, r: int, t: int)
    requires |s| >= 4 && B64d(s[4..]).Some?
    requires Value(s[0]) == Some(p) && Value(s[1]) == Some(q) && Value(s[2]) == Some(r) && Value(s[3]) == Some(t)
    ensures B64d(s) == Some([p * 4 + q / 16, q % 16 * 16 + r / 4, r % 4 * 64 + t] + B64d(s[4..]).value)
  {
  }

  lemma PaddedGroup(s: string, p: int, q: int, r: int)
    requires |s| == 4 && s[3] == '=' && Value(s[0]) == Some(p) && Value(s[1]) == Some(q)
    ensures s[2] == '=' ==> B64d(s) == Some([p * 4 + q / 16])
    ensures Value(s[2]) == Some(r) ==> B64d(s) == Some([p * 4 + q / 16, q % 16 * 16 + r / 4])
  {
    PaddingHasNoValue(0);
    assert s[3..] == "=" && s[2..] == [s[2], '='];
  }

  lemma PaddedSymbols(p: nat, q: nat, r: nat, x: Byte, y: Byte)
    requires p < 64 && q < 64 && r < 64 && p * 4 + q / 16 == x
    ensures B64d([Symbol(p), Symbol(q), '=', '=']) == Some([x])
    ensures q % 16 * 16 + r / 4 == y ==> B64d([Symbol(p), Symbol(q), Symbol(r), '=']) == Some([x, y])
  {
    SearchFinds(p, 0);
    SearchFinds(q, 0);
    SearchFinds(r, 0);
    PaddedGroup([Symbol(p), Symbol(q), '=', '='], p, q, r);
    PaddedGroup([Symbol(p), Symbol(q), Symbol(r), '='], p, q, r);
  }

  lemma OneByte(x: Byte)
    ensures B64d(B64e([x])) == Some([x])
  {
    var p, q := x / 4, x % 4 * 16;
    assert p * 4 + q / 16 == x;
    PaddedSymbols(p, q, 0, x, 0);
  }

  lemma TwoBytes(x: Byte, y: Byte)
    ensures B64d(B64e([x, y])) == Some([x, y])
  {
    var p, q, r := x / 4, x % 4 * 16 + y / 16, y % 16 * 4;
    assert p * 4 + q / 16 == x && q % 16 * 16 + r / 4 == y by {
      Sextets(x, y, 0);
    }
    PaddedSymbols(p, q, r, x, y);
  }

  lemma SymbolGroup(p: nat, q: nat, r: nat, t: nat, tail: string)
    requires p < 64 && q < 64 && r < 64 && t < 64 && B64d(tail).Some?
    ensures B64d([Symbol(p), Symbol(q), Symbol(r), Symbol(t)] + tail)
         == Some([p * 4 + q / 16, q % 16 * 16 + r / 4, r % 4 * 64 + t] + B64d(tail).value)
  {
    var s := [Symbol(p), Symbol(q), Symbol(r), Symbol(t)] + tail;
    SearchFinds(p, 0);
    SearchFinds(q, 0);
    SearchFinds(r, 0);
    SearchFinds(t, 0);
    assert s[4..] == tail;
    FullGroup(s, p, q, r, t);
  }

  lemma Regrouped(p: nat, q: nat, r: nat, t: nat, x: Byte, y: Byte, z: Byte, text: string)
    requires p < 64 && q < 64 && r < 64 && t < 64 && B64d(text).Some?
    requires p * 4 + q / 16 == x && q % 16 * 16 + r / 4 == y && r % 4 * 64 + t == z
    ensures B64d([Symbol(p), Symbol(q), Symbol(r), Symbol(t)] + text) == Some([x, y, z] + B64d(text).value)
  {
    SymbolGroup(p, q, r, t, text);
    assert [p * 4 + q / 16, q % 16 * 16 + r / 4, r % 4 * 64 + t] == [x, y, z];
  }

  lemma ThreeBytes(x: Byte, y: Byte, z: Byte, rest: Bytes, text: string)
    requires B64d(text) == Some(rest)
    ensures B64d(Group(x, y, z) + text) == Some([x, y, z] + rest)
  {
    var p, q, r, t := x / 4, x % 4 * 16 + y / 16, y % 16 * 4 + z / 64, z % 64;
    assert p * 4 + q / 16 == x && q % 16 * 16 + r / 4 == y && r % 4 * 64 + t == z by {
      Sextets(x, y, z);
    }
    Regrouped(p, q, r, t, x, y, z, text);
  }

  /** Decoding inverts encoding, for every byte string. */
  lemma {:induction false} RoundTrip(b: Bytes)
    ensures B64d(B64e(b)) == Some(b)
  {
    if |b| >= 3 {
      RoundTrip(b[3..]);
      ThreeBytes(b[0], b[1], b[2], b[3..], B64e(b[3..]));
      assert b == [b[0], b[1], b[2]] + b[3..];
    } else if |b| == 2 {
      TwoBytes(b[0], b[1]);
      assert b == [b[0], b[1]];
    } else if |b| == 1 {
      OneByte(b[0]);
      assert b == [b[0]];
    }
  }

  lemma Injective(a: Bytes, b: Bytes)
    requires B64e(a) == B64e(b)
    ensures a == b
  {
    RoundTrip(a);
    RoundTrip(b);
  }

  lemma {:induction false} EncodedLength(b: Bytes, groups: nat)
    requires 3 * groups - 2 <= |b| <= 3 * groups
    ensures |B64e(b)| == 4 * groups
  {
    if |b| >= 3 {
      EncodedLength(b[3..], groups - 1);
    }
  }

  /** Encoded text never contains a separator of the envelope or of the audit line. */
  lemma {:induction false} NoSeparators(b: Bytes)
    ensures ':' !in B64e(b) && '|' !in B64e(b)
  {
    if |b| >= 3 {
      NoSeparators(b[3..]);
    }
  }
}
