/** The self-describing ciphertext text of the transit engine. */
module Envelope {
  import opened Basics
  import opened Text
  import opened Base64
  import opened Validation

  datatype Parsed = Parsed(version: nat, name: string, blob: Bytes)

  function Print(version: nat, name: string, blob: Bytes): string {
    Join("vault", ':', Join("v" + Dec(version), ':', Join(name, ':', B64e(blob))))
  }

  /** The part of `decrypt` that runs before the key is looked up. */
  function Parse(envelope: string): (r: Result<Parsed>)
    ensures r.Ok? ==> r.value.version >= 1 && |r.value.blob| >= 28
    ensures r.Err? ==> r.error == InvalidCiphertext
  {
    ParseParts(Split(envelope, ':', 3))
  }

  function ParseParts(parts: seq<string>): (r: Result<Parsed>)
    ensures r.Ok? ==> r.value.version >= 1 && |r.value.blob| >= 28 && |parts| == 4 && r.value.name == parts[2]
    ensures r.Err? ==> r.error == InvalidCiphertext
  {
    if |parts| != 4 || parts[0] != "vault" || !("v" <= parts[1]) || parts[2] == "" then Err(InvalidCiphertext)
    else
      match ParseInt(parts[1][1..])
      case None => Err(InvalidCiphertext)
      case Some(version) =>
        if version < 1 then Err(InvalidCiphertext)
        else
          var blob :- Decode(parts[3], InvalidCiphertext);
          if |blob| < 28 then Err(InvalidCiphertext) else Ok(Parsed(version, parts[2], blob))
  }

  function Count(s: string, c: char): nat {
    if s == "" then 0 else (if s[0] == c then 1 else 0) + Count(s[1..], c)
  }

  /** The key name the decrypt handler puts in the audit log. */
  function AuditName(envelope: string): string {
    if Count(envelope, ':') >= 3 then
      SplitCount(envelope, ':', 3);
      Split(envelope, ':', 3)[2]
    else "malformed"
  }

  lemma {:induction false} SplitCount(s: string, c: char, max: nat)
    ensures Count(s, c) >= max <==> |Split(s, c, max)| == max + 1
    ensures |Split(s, c, max)| <= max + 1
  {
    CountToFirst(s, c);
    var i := IndexOf(s, c);
    if max > 0 && i < |s| {
      var rest := s[i + 1..];
      SplitCount(rest, c, max - 1);
      assert Split(s, c, max) == [s[..i]] + Split(rest, c, max - 1);
      assert Count(s, c) == 1 + Count(rest, c);
    }
  }

  lemma {:induction false} CountToFirst(s: string, c: char)
    ensures IndexOf(s, c) < |s| ==> Count(s, c) == 1 + Count(s[IndexOf(s, c) + 1..], c)
    ensures IndexOf(s, c) == |s| ==> Count(s, c) == 0
  {
    if s != "" && s[0] != c {
      CountToFirst(s[1..], c);
      var i := IndexOf(s[1..], c);
      assert i < |s[1..]| ==> s[1..][i + 1..] == s[i + 2..];
    }
  }

  lemma PrintedParts(head: string, v: string, name: string, text: string, c: char)
    requires c !in head && c !in v && c !in name
    ensures Split(Join(head, c, Join(v, c, Join(name, c, text))), c, 3) == [head, v, name, text]
  {
    var rest := Join(name, c, text);
    SplitOnce(name, text, c, 1);
    SplitOnce(v, rest, c, 2);
    SplitOnce(head, Join(v, c, rest), c, 3);
  }

  /** A printed envelope is read back exactly, for every version, key name and blob. */
  lemma RoundTrip(version: nat, name: string, blob: Bytes)
    requires version >= 1 && ValidKeyName(name) && |blob| >= 28
    ensures Parse(Print(version, name, blob)) == Ok(Parsed(version, name, blob))
  {
    var v := "v" + Dec(version);
    DecIsDigits(version);
    PrintedParts("vault", v, name, B64e(blob), ':');
    assert v[1..] == Dec(version);
    ParseIntDec(version);
    Base64.RoundTrip(blob);
  }

  /** The audited name is the name `decrypt` looks up, whenever it gets as far as looking one up. */
  lemma AuditNameIsLookedUp(envelope: string)
    requires Parse(envelope).Ok?
    ensures AuditName(envelope) == Parse(envelope).value.name
  {
    SplitCount(envelope, ':', 3);
  }
}
