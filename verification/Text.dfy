/** The string operations the services rely on: decimal printing, `int()`, `split` and f-string joins. */
module Text {
  import opened Basics

  /** The position of the first `c` in `s`, or `|s|` when there is none. */
  function IndexOf(s: string, c: char): (i: nat)
    ensures i <= |s|
    ensures i < |s| ==> s[i] == c
  {
    if s == "" then 0 else if s[0] == c then 0 else 1 + IndexOf(s[1..], c)
  }

  predicate Contains(s: string, part: string) {
    exists i | 0 <= i <= |s| :: part <= s[i..]
  }

  /** Two parts of an f-string with a separator between them. */
  function Join(a: string, c: char, b: string): string {
    a + [c] + b
  }

  /** `s.split(c, max)`: at most `max` cuts, each at the first remaining `c`. */
  function Split(s: string, c: char, max: nat): seq<string> {
    var i := IndexOf(s, c);
    if max == 0 || i == |s| then [s] else [s[..i]] + Split(s[i + 1..], c, max - 1)
  }

  predicate IsDigit(c: char) {
    '0' <= c <= '9'
  }

  function Dec(n: nat): string {
    var last := (n % 10 + '0' as int) as char;
    if n < 10 then [last] else Dec(n / 10) + [last]
  }

  /** The digits of a Python integer literal: single underscores may stand between digits. */
  function ParseDigits(s: string): Option<nat> {
    if s == "" || !IsDigit(s[|s| - 1]) then None
    else
      var digit := s[|s| - 1] as int - '0' as int;
      var front := s[..|s| - 1];
      if front == "" then Some(digit)
      else
        match ParseDigits(if front[|front| - 1] == '_' then front[..|front| - 1] else front)
        case None => None
        case Some(high) => Some(10 * high + digit)
  }

  predicate IsSpace(c: char) {
    c in " \t\n\r" || c as int == 11 || c as int == 12
  }

  function Strip(s: string): string {
    if s == "" then s
    else if IsSpace(s[0]) then Strip(s[1..])
    else if IsSpace(s[|s| - 1]) then Strip(s[..|s| - 1])
    else s
  }

  /** Python's `int(text)` on ASCII text; None stands for ValueError. */
  function ParseInt(text: string): Option<int> {
    var s := Strip(text);
    if s == "" then None
    else if s[0] == '+' then ParseDigits(s[1..])
    else if s[0] == '-' then
      (match ParseDigits(s[1..]) case None => None case Some(n) => Some(-(n as int)))
    else ParseDigits(s)
  }

  lemma DecIsDigits(n: nat)
    ensures Dec(n) != "" && forall c | c in Dec(n) :: IsDigit(c)
  {
  }

  lemma {:induction false} ParseDigitsDec(n: nat)
    ensures ParseDigits(Dec(n)) == Some(n)
  {
    if n >= 10 {
      var front := Dec(n / 10);
      ParseDigitsDec(n / 10);
      DecIsDigits(n / 10);
      assert Dec(n)[..|Dec(n)| - 1] == front && front[|front| - 1] in front;
    }
  }

  /** A printed version number reads back as itself. */
  lemma ParseIntDec(n: nat)
    ensures ParseInt(Dec(n)) == Some(n)
  {
    var s := Dec(n);
    DecIsDigits(n);
    ParseDigitsDec(n);
    assert s[0] in s && s[|s| - 1] in s;
  }

  lemma DecInjective(m: nat, n: nat)
    requires Dec(m) == Dec(n)
    ensures m == n
  {
    ParseDigitsDec(m);
    ParseDigitsDec(n);
  }

  lemma {:induction false} BeforeIndex(s: string, c: char)
    ensures c !in s[..IndexOf(s, c)]
  {
    if s != "" && s[0] != c {
      BeforeIndex(s[1..], c);
      assert s[..IndexOf(s, c)] == [s[0]] + s[1..][..IndexOf(s[1..], c)];
    }
  }

  /** The first separator of a join is the one that was put there, if the left part has none. */
  lemma {:induction false} JoinParts(a: string, c: char, b: string)
    requires c !in a
    ensures IndexOf(Join(a, c, b), c) == |a|
    ensures Join(a, c, b)[..|a|] == a && Join(a, c, b)[|a| + 1..] == b
  {
    if a != "" {
      assert a[0] in a;
      JoinParts(a[1..], c, b);
      assert Join(a, c, b)[1..] == Join(a[1..], c, b);
    }
  }

  /** The position of the last `c` in `s`, or -1. */
  function LastIndexOf(s: string, c: char): int {
    if s == "" then -1 else if s[|s| - 1] == c then |s| - 1 else LastIndexOf(s[..|s| - 1], c)
  }

  lemma {:induction false} LastAt(s: string, c: char, i: nat)
    requires i < |s| && s[i] == c && c !in s[i + 1..]
    ensures LastIndexOf(s, c) == i
  {
    if i < |s| - 1 {
      assert s[|s| - 1] in s[i + 1..] && s[..|s| - 1][i + 1..] == s[i + 1..][..|s| - i - 2];
      LastAt(s[..|s| - 1], c, i);
    }
  }

  /** A separator that does not occur in the left parts is found at the same place in equal joins. */
  lemma CutAtSeparator(a: string, b: string, x: string, y: string, c: char)
    requires c !in a && c !in x && Join(a, c, b) == Join(x, c, y)
    ensures a == x && b == y
  {
    JoinParts(a, c, b);
    JoinParts(x, c, y);
  }

  /** The same from the right: a separator that does not occur in the right parts. */
  lemma CutAtLastSeparator(a: string, b: string, x: string, y: string, c: char)
    requires c !in b && c !in y && Join(a, c, b) == Join(x, c, y)
    ensures a == x && b == y
  {
    var s := Join(a, c, b);
    assert s[|a| + 1..] == b && s[|x| + 1..] == y;
    LastAt(s, c, |a|);
    LastAt(s, c, |x|);
    assert s[..|a|] == a && s[..|x|] == x;
  }

  lemma SplitOnce(head: string, tail: string, c: char, max: nat)
    requires c !in head && max > 0
    ensures Split(Join(head, c, tail), c, max) == [head] + Split(tail, c, max - 1)
  {
    JoinParts(head, c, tail);
  }
}
