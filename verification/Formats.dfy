/** The texts and constants other programs rely on, spelled out. */
module Formats {
  import opened Basics
  import opened Text
  import opened Base64
  import opened Contexts
  import opened Validation
  import opened Crypto
  import opened AuditModel
  import Envelope

  const UPPER := "ABCDEFGHIJKLMNOPQRSTUVWXYZ"
  const LOWER := "abcdefghijklmnopqrstuvwxyz"
  const DIGITS := "0123456789"
  const ALPHABET := UPPER + LOWER + DIGITS + "+/"

  lemma Letters(v: nat)
    requires v < 26
    ensures |UPPER| == |LOWER| == 26
    ensures UPPER[v] == ('A' as int + v) as char && LOWER[v] == ('a' as int + v) as char
  {
  }

  /** The alphabet of section 4 of RFC 4648. */
  lemma AlphabetOfTheStandard(v: nat)
    requires v < 64
    ensures |ALPHABET| == 64 && Symbol(v) == ALPHABET[v]
  {
    Letters(if v < 26 then v else if v < 52 then v - 26 else 0);
    hide UPPER, LOWER;
  }

  /** The test vectors of section 10 of RFC 4648. */
  lemma VectorsOfTheStandard()
    ensures B64e([]) == "" && B64e([0x66]) == "Zg==" && B64e([0x66, 0x6f]) == "Zm8="
    ensures B64e([0x66, 0x6f, 0x6f]) == "Zm9v" && B64e([0x66, 0x6f, 0x6f, 0x62]) == "Zm9vYg=="
    ensures B64e([0x66, 0x6f, 0x6f, 0x62, 0x61]) == "Zm9vYmE="
    ensures B64e([0x66, 0x6f, 0x6f, 0x62, 0x61, 0x72]) == "Zm9vYmFy"
  {
  }

  /** Complete groups of the alphabet, the last one padded with at most two '='. */
  predicate IsBase64(s: string) {
    if s == "" then true
    else if |s| < 4 then false
    else if s[2] == '=' then |s| == 4 && s[3] == '=' && s[0] in ALPHABET && s[1] in ALPHABET
    else if s[3] == '=' then |s| == 4 && s[0] in ALPHABET && s[1] in ALPHABET && s[2] in ALPHABET
    else s[0] in ALPHABET && s[1] in ALPHABET && s[2] in ALPHABET && s[3] in ALPHABET && IsBase64(s[4..])
  }

  lemma ValueExists(c: char)
    ensures Value(c).Some? <==> c in ALPHABET
    ensures c == '=' ==> Value(c) == None
  {
    PaddingHasNoValue(0);
    SearchSucceeds(c, 0);
  }

  lemma {:induction false} SearchSucceeds(c: char, from: nat)
    requires from <= 64
    ensures |ALPHABET| == 64 && (Search(c, from).Some? <==> c in ALPHABET[from..])
    decreases 64 - from
  {
    AlphabetOfTheStandard(if from < 64 then from else 0);
    hide Symbol, UPPER, LOWER, DIGITS;
    if from < 64 {
      SearchSucceeds(c, from + 1);
      assert ALPHABET[from..] == [ALPHABET[from]] + ALPHABET[from + 1..];
    }
  }

  /** Exactly well-formed text is decoded. */
  lemma {:induction false} DecodesExactly(s: string)
    ensures B64d(s).Some? <==> IsBase64(s)
  {
    if |s| >= 4 {
      ValueExists(s[0]);
      ValueExists(s[1]);
      ValueExists(s[2]);
      ValueExists(s[3]);
      DecodesExactly(s[4..]);
      hide Value, UPPER, LOWER, DIGITS;
      assert s[2..] == "==" <==> |s| == 4 && s[2] == '=' && s[3] == '=';
      assert s[3..] == "=" <==> |s| == 4 && s[3] == '=';
    }
  }

  /** Decimal numerals. */
  lemma Numerals(n: nat, d: nat)
    requires 1 <= n && d < 10
    ensures Dec(d) == ["0123456789"[d]] && Dec(10 * n + d) == Dec(n) + ["0123456789"[d]]
  {
  }

  lemma EnvelopeText(version: nat, name: string, blob: Bytes)
    ensures Envelope.Print(version, name, blob) == "vault:v" + Dec(version) + ":" + name + ":" + B64e(blob)
  {
    hide Dec, B64e;
    FourParts("vault", ":", "v", Dec(version), name, B64e(blob));
    assert "vault" + ":" + "v" == "vault:v";
  }

  lemma FourParts(head: string, colon: string, v: string, number: string, name: string, text: string)
    requires colon == ":"
    ensures Join(head, ':', Join(v + number, ':', Join(name, ':', text)))
         == head + colon + v + number + ":" + name + ":" + text
  {
    assert [':'] == ":";
  }

  /** The text is the envelope of what was parsed, up to the spelling of its number and its Base64. */
  predicate Spells(envelope: string, number: string, blob64: string, p: Envelope.Parsed) {
    && envelope == "vault:v" + number + ":" + p.name + ":" + blob64
    && ':' !in number && ':' !in p.name && p.name != ""
    && ParseInt(number) == Some(p.version) && p.version >= 1
    && B64d(blob64) == Some(p.blob) && |p.blob| >= 28
  }

  /** A text is accepted as an envelope exactly if it has that shape. */
  lemma ParsesExactly(envelope: string, p: Envelope.Parsed)
    ensures Envelope.Parse(envelope) == Ok(p) <==>
      exists number, blob64 :: Spells(envelope, number, blob64, p)
  {
    forall number, blob64 | Spells(envelope, number, blob64, p)
      ensures Envelope.Parse(envelope) == Ok(p)
    {
      SpelledParses(envelope, number, blob64, p);
    }
    if Envelope.Parse(envelope) == Ok(p) {
      ParsedSpells(envelope, p);
    }
  }

  lemma SpelledParses(envelope: string, number: string, blob64: string, p: Envelope.Parsed)
    requires Spells(envelope, number, blob64, p)
    ensures Envelope.Parse(envelope) == Ok(p)
  {
    hide ParseInt, B64d, Split;
    Envelope.PrintedParts("vault", "v" + number, p.name, blob64, ':');
    assert envelope == Join("vault", ':', Join("v" + number, ':', Join(p.name, ':', blob64)));
    assert ("v" + number)[1..] == number;
  }

  lemma ParsedSpells(envelope: string, p: Envelope.Parsed)
    requires Envelope.Parse(envelope) == Ok(p)
    ensures exists number, blob64 :: Spells(envelope, number, blob64, p)
  {
    hide ParseInt, B64d, Split, IndexOf;
    var parts := Split(envelope, ':', 3);
    var tail := CutOnce(envelope, ':', 3);
    var tail' := CutOnce(tail, ':', 2);
    var tail'' := CutOnce(tail', ':', 1);
    SplitNoMore(tail'', ':');
    var number := parts[1][1..];
    assert parts[1] == "v" + number;
    assert envelope == Join("vault", ':', Join("v" + number, ':', Join(p.name, ':', tail'')));
    assert Spells(envelope, number, tail'', p);
  }

  lemma CutOnce(s: string, c: char, max: nat) returns (tail: string)
    requires max > 0 && |Split(s, c, max)| > 1
    ensures s == Join(Split(s, c, max)[0], c, tail) && c !in Split(s, c, max)[0]
    ensures Split(s, c, max)[1..] == Split(tail, c, max - 1)
  {
    BeforeIndex(s, c);
    tail := s[IndexOf(s, c) + 1..];
  }

  lemma SplitNoMore(s: string, c: char)
    ensures Split(s, c, 0) == [s]
  {
  }

  /** The associated data of payloads and of wrapped keys; version 1 of a key has no version suffix. */
  lemma ContextTexts(kid: KeyId, version: nat)
    ensures PayloadAad(kid, version) == "transit:" + kid.owner + ":" + kid.name + ":v" + Dec(version)
    ensures KeyAad(kid, 1) == "key:" + kid.owner + ":" + kid.name
    ensures version != 1 ==> KeyAad(kid, version) == "key:" + kid.owner + ":" + kid.name + ":v" + Dec(version)
  {
    assert "transit" + [':'] == "transit:" && "key" + [':'] == "key:" && [':'] + "v" == ":v";
  }

  /** The hashed line of the audit log. */
  lemma LineText(row: Row, previous: string)
    ensures Line(row, previous) == Dec(row.id) + "|" + previous + "|" + row.email + "|" + row.action + "|"
      + row.identifier + "|" + row.result
  {
  }

  /** Twelve characters, and somewhere one of each class: upper case, lower case, digit, and none of these. */
  lemma StrongExactly(p: string)
    ensures StrongPassphrase(p) <==>
      && |p| >= 12
      && (exists i :: 0 <= i < |p| && 'A' <= p[i] <= 'Z')
      && (exists i :: 0 <= i < |p| && 'a' <= p[i] <= 'z')
      && (exists i :: 0 <= i < |p| && '0' <= p[i] <= '9')
      && (exists i :: 0 <= i < |p| &&
            !('A' <= p[i] <= 'Z') && !('a' <= p[i] <= 'z') && !('0' <= p[i] <= '9'))
  {
    assert forall i | 0 <= i < |p| :: p[i] in p;
    assert forall c | c in p :: exists i :: 0 <= i < |p| && p[i] == c;
  }
}
