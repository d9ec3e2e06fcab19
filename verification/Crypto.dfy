/** The cryptographic primitives, idealised: what was sealed can be opened in its own context, nothing else can. */
module Crypto {
  import opened Basics
  import opened Contexts

  /** A key, a nonce and the sealed body (ciphertext followed by the tag). */
  datatype Box = Box(key: Bytes, nonce: Nonce, body: Bytes)

  /** Everything sealed so far: per associated data, each box and its plaintext. */
  type SealLog = map<string, map<Box, Bytes>>

  datatype Signature = Signature(public: Bytes, message: Bytes, bytes: Bytes)

  /** AES-256-GCM, Argon2id, Ed25519 and SHA-256 as functions of their inputs. */
  datatype Primitives = Primitives(
    seal: (Bytes, Nonce, Bytes, string) -> Bytes,
    kdf: (string, Bytes) -> Bytes,
    public: Bytes -> Bytes,
    sign: (Bytes, Bytes) -> Bytes,
    sha256: string -> Digest)

  /** Sealing adds a 16-byte tag and is decodable. Nothing is assumed of the other primitives. */
  ghost predicate Sound(p: Primitives) {
    && (forall key, nonce, x, aad :: |p.seal(key, nonce, x, aad)| == |x| + 16)
    && (forall key, nonce, x, y, aad :: p.seal(key, nonce, x, aad) == p.seal(key, nonce, y, aad) ==> x == y)
  }

  /** Padding with sixteen zeros satisfies the assumptions, so they are consistent. */
  ghost const TOY := Primitives(
    (key, nonce, x, aad) => x + seq(16, _ => 0),
    (passphrase, salt) => salt,
    seed => seed,
    (seed, message) => message,
    text => seq(32, _ => 0))

  lemma ToyIsSound()
    ensures Sound(TOY)
  {
    forall key, nonce, x, y, aad | TOY.seal(key, nonce, x, aad) == TOY.seal(key, nonce, y, aad)
      ensures x == y
    {
      assert x == TOY.seal(key, nonce, x, aad)[..|TOY.seal(key, nonce, x, aad)| - 16];
      assert y == TOY.seal(key, nonce, y, aad)[..|TOY.seal(key, nonce, y, aad)| - 16];
    }
  }

  type Suite = p: Primitives | Sound(p) ghost witness (ToyIsSound(); TOY)

  function At(log: SealLog, aad: string): map<Box, Bytes> {
    if aad in log then log[aad] else map[]
  }

  /** AEAD decryption; None stands for InvalidTag. */
  function Open(log: SealLog, key: Bytes, nonce: Nonce, body: Bytes, aad: string): Option<Bytes> {
    var box := Box(key, nonce, body);
    if box in At(log, aad) then Some(At(log, aad)[box]) else None
  }

  function Record(log: SealLog, aad: string, box: Box, plaintext: Bytes): SealLog {
    log[aad := At(log, aad)[box := plaintext]]
  }

  ghost predicate Consistent(suite: Suite, log: SealLog) {
    forall aad, box | box in At(log, aad) :: box.body == suite.seal(box.key, box.nonce, At(log, aad)[box], aad)
  }

  /** Sealing again never changes what an earlier box opens to, in any context. */
  lemma RecordKeeps(suite: Suite, log: SealLog, aad: string, key: Bytes, nonce: Nonce, plaintext: Bytes)
    requires Consistent(suite, log)
    ensures var log' := Record(log, aad, Box(key, nonce, suite.seal(key, nonce, plaintext, aad)), plaintext);
            && Consistent(suite, log')
            && Grows(log, log')
            && (forall a | a != aad :: At(log', a) == At(log, a))
  {
    var box := Box(key, nonce, suite.seal(key, nonce, plaintext, aad));
    var log' := Record(log, aad, box, plaintext);
    forall a, b | b in At(log', a)
      ensures b.body == suite.seal(b.key, b.nonce, At(log', a)[b], a)
    {
      assert a != aad || b != box ==> b in At(log, a) && At(log, a)[b] == At(log', a)[b];
    }
  }

  ghost predicate Grows(log: SealLog, log': SealLog) {
    forall aad, box | box in At(log, aad) :: box in At(log', aad) && At(log', aad)[box] == At(log, aad)[box]
  }

  /** Only contexts of the given engines were touched. */
  ghost predicate TouchesOnly(log: SealLog, log': SealLog, engines: set<char>) {
    Grows(log, log') && forall aad | Engine(aad) !in engines :: At(log', aad) == At(log, aad)
  }

  /** One call of `encrypt`. */
  datatype SealCall = SealCall(key: Bytes, nonce: Nonce, plaintext: Bytes, aad: string)

  function BoxOf(suite: Suite, c: SealCall): Box {
    Box(c.key, c.nonce, suite.seal(c.key, c.nonce, c.plaintext, c.aad))
  }

  function LogOf(suite: Suite, calls: seq<SealCall>): SealLog {
    if calls == [] then map[]
    else
      var c := calls[|calls| - 1];
      Record(LogOf(suite, calls[..|calls| - 1]), c.aad, BoxOf(suite, c), c.plaintext)
  }

  /** No nonce was drawn twice under one key. */
  ghost predicate DistinctNonces(calls: seq<SealCall>) {
    forall i, j | 0 <= i < j < |calls| :: calls[i].key != calls[j].key || calls[i].nonce != calls[j].nonce
  }

  /** A request sealed at most one thing, with the nonce it drew. */
  ghost predicate AtMostOneSeal(calls: seq<SealCall>, calls': seq<SealCall>, nonce: Option<Nonce>) {
    calls' == calls || (nonce.Some? && |calls'| == |calls| + 1 && calls <= calls'
      && calls'[|calls|].nonce == nonce.value)
  }

  lemma {:induction false} LoggedByCall(suite: Suite, calls: seq<SealCall>, aad: string, box: Box) returns (i: nat)
    requires box in At(LogOf(suite, calls), aad)
    ensures i < |calls| && calls[i].aad == aad && box == BoxOf(suite, calls[i])
  {
    i := |calls| - 1;
    var c := calls[i];
    if !(c.aad == aad && box == BoxOf(suite, c)) {
      i := LoggedByCall(suite, calls[..i], aad, box);
    }
  }

  /** Moved to any other context, a sealed body can never be opened there with the same key. */
  lemma MovedBodyFails(suite: Suite, calls: seq<SealCall>, key: Bytes, nonce: Nonce, body: Bytes, from: string,
    to: string)
    requires DistinctNonces(calls) && from != to
    requires Open(LogOf(suite, calls), key, nonce, body, from).Some?
    ensures Open(LogOf(suite, calls), key, nonce, body, to) == None
  {
    var box := Box(key, nonce, body);
    var i := LoggedByCall(suite, calls, from, box);
    if box in At(LogOf(suite, calls), to) {
      var j := LoggedByCall(suite, calls, to, box);
      assert false;
    }
  }

  /** app/core/crypto_service.py, with the memory the idealisation needs. */
  class CryptoService {
    const suite: Suite
    var log: SealLog
    var signatures: set<Signature>
    ghost var calls: seq<SealCall>

    ghost predicate Valid()
      reads this
    {
      Consistent(suite, log) && log == LogOf(suite, calls)
    }

    constructor (suite: Suite)
      ensures Valid() && this.suite == suite && log == map[] && signatures == {}
    {
      this.suite := suite;
      log, signatures, calls := map[], {}, [];
    }

    method Encrypt(key: Bytes, nonce: Nonce, plaintext: Bytes, aad: string) returns (body: Bytes)
      requires Valid()
      modifies this`log, this`calls
      ensures Valid()
      ensures body == suite.seal(key, nonce, plaintext, aad) && |body| == |plaintext| + 16
      ensures log == Record(old(log), aad, Box(key, nonce, body), plaintext)
      ensures Grows(old(log), log) && forall a | a != aad :: At(log, a) == At(old(log), a)
      ensures calls == old(calls) + [SealCall(key, nonce, plaintext, aad)]
    {
      body := suite.seal(key, nonce, plaintext, aad);
      RecordKeeps(suite, log, aad, key, nonce, plaintext);
      log := Record(log, aad, Box(key, nonce, body), plaintext);
      calls := calls + [SealCall(key, nonce, plaintext, aad)];
    }

    method Decrypt(key: Bytes, nonce: Nonce, body: Bytes, aad: string) returns (plaintext: Option<Bytes>)
      ensures plaintext == Open(log, key, nonce, body, aad)
    {
      plaintext := Open(log, key, nonce, body, aad);
    }

    method Sign(seed: Bytes, message: Bytes) returns (signature: Bytes)
      modifies this`signatures
      ensures signature == suite.sign(seed, message)
      ensures signatures == old(signatures) + {Signature(suite.public(seed), message, signature)}
    {
      signature := suite.sign(seed, message);
      signatures := signatures + {Signature(suite.public(seed), message, signature)};
    }

    method Verify(public: Bytes, message: Bytes, signature: Bytes) returns (valid: bool)
      ensures valid <==> Signature(public, message, signature) in signatures
    {
      valid := Signature(public, message, signature) in signatures;
    }
  }
}
