/** What the KV engine promises: a map from path to the list of values written there. */
module SecretsModel {
  import opened Basics
  import opened Validation

  datatype Value = Value(data: Bytes, writtenAt: Time)

  type Values = s: seq<Value> | s != [] witness [Value([], 0)]

  type Secrets = map<string, Values>

  datatype Receipt = Receipt(path: string, version: nat, createdAt: Time, updatedAt: Time)

  datatype Reading = Reading(path: string, version: nat, data: Bytes)

  datatype VersionInfo = VersionInfo(version: nat, createdAt: Time)

  function Last(values: Values): Value {
    values[|values| - 1]
  }

  function Summary(path: string, values: Values): Receipt {
    Receipt(path, |values|, values[0].writtenAt, Last(values).writtenAt)
  }

  /** The guard all path operations share: the path is judged before the lock. */
  function Admit(unlocked: bool, path: string, email: string): Result<()> {
    var _ :- ValidatePath(path, email);
    if unlocked then Ok(()) else Err(VaultLocked)
  }

  function Lookup(unlocked: bool, secrets: Secrets, path: string, email: string): (r: Result<Values>)
    ensures r.Ok? ==> unlocked && Owns(email, path) && path in secrets && r.value == secrets[path]
  {
    var _ :- Admit(unlocked, path, email);
    if path in secrets then Ok(secrets[path]) else Err(NotFound)
  }

  function Written(secrets: Secrets, path: string, value: Value): Values {
    if path in secrets then secrets[path] + [value] else [value]
  }

  function Write(unlocked: bool, secrets: Secrets, path: string, email: string, data: Bytes, now: Time)
    : (Secrets, Result<Receipt>)
  {
    match Admit(unlocked, path, email)
    case Err(e) => (secrets, Err(e))
    case Ok(_) =>
      if |data| > MAX_PAYLOAD then (secrets, Err(ValidationError))
      else
        var values := Written(secrets, path, Value(data, now));
        (secrets[path := values], Ok(Summary(path, values)))
  }

  function Read(unlocked: bool, secrets: Secrets, path: string, email: string, version: Option<int>): Result<Reading> {
    var values :- Lookup(unlocked, secrets, path, email);
    match version
    case None => Ok(Reading(path, |values|, Last(values).data))
    case Some(v) =>
      if v < 1 then Err(ValidationError)
      else if v > |values| then Err(NotFound)
      else Ok(Reading(path, v, values[v - 1].data))
  }

  function Infos(values: Values): (infos: seq<VersionInfo>)
    ensures |infos| == |values|
    ensures forall i | 0 <= i < |infos| :: infos[i] == VersionInfo(i + 1, values[i].writtenAt)
  {
    seq(|values|, i requires 0 <= i < |values| => VersionInfo(i + 1, values[i].writtenAt))
  }

  function Versions(unlocked: bool, secrets: Secrets, path: string, email: string): Result<seq<VersionInfo>> {
    var values :- Lookup(unlocked, secrets, path, email);
    Ok(Infos(values))
  }

  function Delete(unlocked: bool, secrets: Secrets, path: string, email: string): (Secrets, Result<()>) {
    match Lookup(unlocked, secrets, path, email)
    case Err(e) => (secrets, Err(e))
    case Ok(_) => (secrets - {path}, Ok(()))
  }

  /** Code-point order on paths. */
  predicate Precedes(a: string, b: string) {
    a == "" || (b != "" && (a[0] < b[0] || (a[0] == b[0] && Precedes(a[1..], b[1..]))))
  }

  lemma PrecedesTotal(a: string, b: string)
    ensures Precedes(a, b) || Precedes(b, a)
  {
  }

  lemma {:induction false} PrecedesAntisymmetric(a: string, b: string)
    requires Precedes(a, b) && Precedes(b, a)
    ensures a == b
  {
    if a != "" {
      PrecedesAntisymmetric(a[1..], b[1..]);
      assert a == [a[0]] + a[1..] && b == [b[0]] + b[1..];
    }
  }

  lemma {:induction false} PrecedesTransitive(a: string, b: string, c: string)
    requires Precedes(a, b) && Precedes(b, c)
    ensures Precedes(a, c)
  {
    if a != "" && a[0] == b[0] == c[0] {
      PrecedesTransitive(a[1..], b[1..], c[1..]);
    }
  }

  ghost predicate IsFirst(p: string, paths: set<string>) {
    p in paths && forall q | q in paths :: Precedes(p, q)
  }

  lemma {:induction false} FirstExists(paths: set<string>)
    requires paths != {}
    ensures exists p :: IsFirst(p, paths)
  {
    var p :| p in paths;
    var rest := paths - {p};
    PrecedesTotal(p, p);
    assert forall r | r in paths :: r == p || r in rest;
    if rest != {} {
      FirstExists(rest);
      var q :| IsFirst(q, rest);
      PrecedesTotal(p, q);
      if Precedes(q, p) {
        assert IsFirst(q, paths);
      } else {
        forall r | r in rest ensures Precedes(p, r) {
          PrecedesTransitive(p, q, r);
        }
        assert IsFirst(p, paths);
      }
    } else {
      assert IsFirst(p, paths);
    }
  }

  /** The paths in order. */
  ghost function Sorted(paths: set<string>): (s: seq<string>)
    ensures |s| == |paths|
  {
    if paths == {} then []
    else
      var first := First(paths);
      [first] + Sorted(paths - {first})
  }

  ghost function First(paths: set<string>): (p: string)
    requires paths != {}
    ensures IsFirst(p, paths)
  {
    FirstExists(paths);
    var p :| IsFirst(p, paths);
    p
  }

  ghost function PathsOf(secrets: Secrets, email: string): set<string> {
    set path | path in secrets && Owns(email, path)
  }

  ghost function List(unlocked: bool, secrets: Secrets, email: string): Result<seq<Receipt>> {
    if !unlocked then Err(VaultLocked)
    else Ok(Summaries(secrets, Sorted(PathsOf(secrets, email))))
  }

  ghost function Summaries(secrets: Secrets, paths: seq<string>): (s: seq<Receipt>)
    ensures |s| == |paths|
  {
    seq(|paths|, i requires 0 <= i < |paths| =>
      if paths[i] in secrets then Summary(paths[i], secrets[paths[i]]) else Receipt(paths[i], 0, 0, 0))
  }

  lemma FirstIsUnique(p: string, paths: set<string>)
    requires IsFirst(p, paths)
    ensures p == First(paths)
  {
    PrecedesAntisymmetric(p, First(paths));
  }

  lemma {:induction false} SortedIsComplete(paths: set<string>, p: string)
    ensures p in Sorted(paths) <==> p in paths
  {
    if paths != {} {
      SortedIsComplete(paths - {First(paths)}, p);
    }
  }

  /** The listing is in strict order. */
  lemma {:induction false} SortedIsOrdered(paths: set<string>, i: nat, j: nat)
    requires i < j < |paths|
    ensures Precedes(Sorted(paths)[i], Sorted(paths)[j]) && Sorted(paths)[i] != Sorted(paths)[j]
  {
    var rest := paths - {First(paths)};
    if i == 0 {
      var p := Sorted(rest)[j - 1];
      SortedIsComplete(rest, p);
      assert p in rest;
    } else {
      SortedIsOrdered(rest, i - 1, j - 1);
    }
  }
}
