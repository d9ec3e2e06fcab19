/** The guard functions of app/utils/validation.py and the namespaces they separate. */
module Validation {
  import opened Basics
  import opened Text

  predicate IsLetter(c: char) {
    'A' <= c <= 'Z' || 'a' <= c <= 'z'
  }

  /** What the request schema guarantees of an authenticated email address. */
  predicate ValidEmail(email: string) {
    '@' in email && '@' !in Domain(email) && '/' !in Domain(email) && ':' !in email
  }

  function Local(email: string): string {
    email[..IndexOf(email, '@')]
  }

  function Domain(email: string): string {
    var at := IndexOf(email, '@');
    if at < |email| then email[at + 1..] else ""
  }

  predicate ValidKeyName(name: string) {
    3 <= |name| <= 64 && forall c | c in name :: IsLetter(c) || IsDigit(c) || c == '_' || c == '-'
  }

  predicate StrongPassphrase(p: string) {
    && |p| >= 12
    && (exists c | c in p :: 'A' <= c <= 'Z')
    && (exists c | c in p :: 'a' <= c <= 'z')
    && (exists c | c in p :: IsDigit(c))
    && (exists c | c in p :: !IsLetter(c) && !IsDigit(c))
  }

  function Namespace(email: string): string {
    "secret/" + email + "/"
  }

  function ValidatePath(path: string, email: string): Result<()> {
    if |path| > 512 || path == "" || Contains(path, "..") || '\\' in path || 0 as char in path then
      Err(ValidationError)
    else if !("secret/" <= path) then Err(ValidationError)
    else if !(Namespace(email) <= path) || |path| == |Namespace(email)| then Err(PermissionDenied)
    else Ok(())
  }

  predicate Owns(email: string, path: string) {
    ValidatePath(path, email).Ok?
  }

  lemma {:induction false} EmailParts(email: string)
    requires '@' in email
    ensures email == Join(Local(email), '@', Domain(email)) && '@' !in Local(email)
  {
    BeforeIndex(email, '@');
    HasIndex(email, '@');
  }

  lemma {:induction false} HasIndex(s: string, c: char)
    requires c in s
    ensures IndexOf(s, c) < |s|
  {
    if s[0] != c {
      HasIndex(s[1..], c);
    }
  }

  /** After "secret/", a path in a namespace is local@domain/rest. */
  lemma PathShape(path: string, email: string) returns (rest: string)
    requires ValidEmail(email) && Namespace(email) <= path
    ensures path[7..] == Join(Local(email), '@', Join(Domain(email), '/', rest))
  {
    EmailParts(email);
    rest := path[|Namespace(email)|..];
    assert path == Namespace(email) + rest;
    assert (Namespace(email) + rest)[7..] == Join(email, '/', rest);
  }

  /** Each path is acceptable to at most one email. */
  lemma OneOwner(path: string, e1: string, e2: string)
    requires ValidEmail(e1) && ValidEmail(e2)
    requires Namespace(e1) <= path && Namespace(e2) <= path
    ensures e1 == e2
  {
    var r1 := PathShape(path, e1);
    var r2 := PathShape(path, e2);
    EmailParts(e1);
    EmailParts(e2);
    CutAtSeparator(Local(e1), Join(Domain(e1), '/', r1), Local(e2), Join(Domain(e2), '/', r2), '@');
    CutAtSeparator(Domain(e1), r1, Domain(e2), r2, '/');
  }

  lemma OwnerIsUnique(path: string, e1: string, e2: string)
    requires ValidEmail(e1) && ValidEmail(e2) && Owns(e1, path) && Owns(e2, path)
    ensures e1 == e2
  {
    OneOwner(path, e1, e2);
  }
}
