/** The string and list operations of JavaScript that the modelled code relies on. */
module Text {

  /** `a` is `b` with some elements left out, the rest kept in order. */
  predicate IsSubsequence<T(==)>(a: seq<T>, b: seq<T>)
    decreases |b|
  {
    if a == [] then true
    else if b == [] then false
    else if a[0] == b[0] then IsSubsequence(a[1..], b[1..])
    else IsSubsequence(a, b[1..])
  }

  /** Two positions of a subsequence come from two increasing positions of the whole. */
  lemma {:induction false} SubsequenceKeepsOrder<T>(a: seq<T>, b: seq<T>, i: nat, j: nat)
    requires IsSubsequence(a, b) && i < j < |a|
    ensures exists p, q :: 0 <= p < q < |b| && b[p] == a[i] && b[q] == a[j]
    decreases |b|
  {
    assert b != [];
    if a[0] == b[0] {
      if i == 0 {
        SubsequenceHas(a[1..], b[1..], j - 1);
        var q :| 0 <= q < |b[1..]| && b[1..][q] == a[1..][j - 1];
        assert b[q + 1] == a[j];
      } else {
        SubsequenceKeepsOrder(a[1..], b[1..], i - 1, j - 1);
        var p, q :| 0 <= p < q < |b[1..]| && b[1..][p] == a[1..][i - 1] && b[1..][q] == a[1..][j - 1];
        assert b[p + 1] == a[i] && b[q + 1] == a[j];
      }
    } else {
      SubsequenceKeepsOrder(a, b[1..], i, j);
      var p, q :| 0 <= p < q < |b[1..]| && b[1..][p] == a[i] && b[1..][q] == a[j];
      assert b[p + 1] == a[i] && b[q + 1] == a[j];
    }
  }

  /** Every element of a subsequence occurs in the whole. */
  lemma {:induction false} SubsequenceHas<T>(a: seq<T>, b: seq<T>, i: nat)
    requires IsSubsequence(a, b) && i < |a|
    ensures exists q :: 0 <= q < |b| && b[q] == a[i]
    decreases |b|
  {
    assert b != [];
    if a[0] == b[0] {
      if i == 0 {
        assert b[0] == a[0];
      } else {
        SubsequenceHas(a[1..], b[1..], i - 1);
        var q :| 0 <= q < |b[1..]| && b[1..][q] == a[1..][i - 1];
        assert b[q + 1] == a[i];
      }
    } else {
      SubsequenceHas(a, b[1..], i);
      var q :| 0 <= q < |b[1..]| && b[1..][q] == a[i];
      assert b[q + 1] == a[i];
    }
  }

  /** `s.filter(keep)`: the elements that pass, in order, each as often as in `s`. */
  function Filter<T(==,!new)>(s: seq<T>, keep: T -> bool): (r: seq<T>)
    ensures IsSubsequence(r, s)
    ensures forall x :: x in r <==> x in s && keep(x)
    ensures forall x :: keep(x) ==> multiset(r)[x] == multiset(s)[x]
  {
    if s == [] then []
    else
      var rest := Filter(s[1..], keep);
      assert s == [s[0]] + s[1..];
      if keep(s[0]) then
        assert ([s[0]] + rest)[1..] == rest;
        [s[0]] + rest
      else
        assert rest != [] ==> rest[0] != s[0];
        rest
  }

  predicate IsAsciiUpper(c: char) {
    'A' <= c <= 'Z'
  }

  predicate HasAsciiUpper(s: string) {
    exists i :: 0 <= i < |s| && IsAsciiUpper(s[i])
  }

  /** `toLowerCase` on one character, for the ASCII letters. */
  function LowerChar(c: char): (d: char)
    ensures !IsAsciiUpper(d)
    ensures !IsAsciiUpper(c) ==> d == c
    ensures IsAsciiUpper(c) ==> d as int == c as int + 32
  {
    if IsAsciiUpper(c) then (c as int + 32) as char else c
  }

  /** `String.prototype.toLowerCase`: same length, each character lowered, no upper-case letter left. */
  function Lower(s: string): (r: string)
    ensures |r| == |s|
    ensures forall i :: 0 <= i < |s| ==> r[i] == LowerChar(s[i])
    ensures !HasAsciiUpper(r)
  {
    seq(|s|, i requires 0 <= i < |s| => LowerChar(s[i]))
  }

  /** `s.replace(/\+/g, ' ')`: every '+' becomes a space, nothing else changes. */
  function ReplacePlus(s: string): (r: string)
    ensures |r| == |s| && '+' !in r
    ensures forall i :: 0 <= i < |s| ==> r[i] == (if s[i] == '+' then ' ' else s[i])
    ensures '+' !in s ==> r == s
  {
    seq(|s|, i requires 0 <= i < |s| => if s[i] == '+' then ' ' else s[i])
  }

  /** `s.startsWith(prefix)` */
  predicate StartsWith(s: string, prefix: string) {
    |prefix| <= |s| && s[..|prefix|] == prefix
  }

  /** The position of the first `c` in `s`. */
  function IndexOf(s: string, c: char): (i: nat)
    requires c in s
    ensures i < |s| && s[i] == c && c !in s[..i]
  {
    if s[0] == c then 0
    else
      var j := IndexOf(s[1..], c);
      assert s[..j + 1] == [s[0]] + s[1..][..j];
      j + 1
  }

  /** `parts.join(sep)` for a one-character separator. */
  function Join(parts: seq<string>, sep: char): string
    requires |parts| >= 1
  {
    if |parts| == 1 then parts[0] else parts[0] + [sep] + Join(parts[1..], sep)
  }

  /** `s.split(sep)` for a one-character separator: the pieces between the separators,
      at least one, none containing `sep`, and joining them gives `s` back. */
  function Split(s: string, sep: char): (parts: seq<string>)
    ensures |parts| >= 1
    ensures forall k :: 0 <= k < |parts| ==> sep !in parts[k]
    ensures Join(parts, sep) == s
    decreases |s|
  {
    if sep !in s then [s]
    else
      var i := IndexOf(s, sep);
      var rest := Split(s[i + 1..], sep);
      assert s == s[..i] + [sep] + s[i + 1..];
      assert ([s[..i]] + rest)[1..] == rest;
      [s[..i]] + rest
  }

  function Last<T>(s: seq<T>): T
    requires |s| > 0
  {
    s[|s| - 1]
  }

  /** Splitting at the first separator: the text before it is the first piece. */
  lemma SplitAtFirst(a: string, sep: char, b: string)
    requires sep !in a
    ensures Split(a + [sep] + b, sep) == [a] + Split(b, sep)
  {
    var s := a + [sep] + b;
    assert s[|a|] == sep;
    var i := IndexOf(s, sep);
    assert i == |a|;
    assert s[..i] == a;
    assert s[i + 1..] == b;
  }

  /** With several pieces, the joined string is the join of all but the last, a separator, and the last. */
  lemma {:induction false} JoinLast(parts: seq<string>, sep: char)
    requires |parts| > 1
    ensures Join(parts, sep) == Join(parts[..|parts| - 1], sep) + [sep] + Last(parts)
  {
    var tail := parts[1..];
    if |tail| > 1 {
      JoinLast(tail, sep);
      assert parts[..|parts| - 1][1..] == tail[..|tail| - 1];
    }
  }

  /** The first two pieces, with the separator between them, start the joined string. */
  lemma JoinStartsWithFirstTwo(parts: seq<string>, sep: char)
    requires |parts| >= 2
    ensures StartsWith(Join(parts, sep), parts[0] + [sep] + parts[1])
    ensures |parts| > 2 ==> StartsWith(Join(parts, sep), parts[0] + [sep] + parts[1] + [sep])
  {
    var tail := parts[1..];
    if |tail| > 1 {
      assert Join(tail, sep) == parts[1] + [sep] + Join(tail[1..], sep);
    }
  }
}
