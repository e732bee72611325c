/** Characters and offsets of a text, shared by the two readers. */
module Texts {
  /** What `\s` and `trim` take for white space. */
  predicate IsSpace(c: char) {
    var n := c as int;
    || 9 <= n <= 13 || n == 32 || n == 0xA0 || n == 0x1680 || 0x2000 <= n <= 0x200A
    || n == 0x2028 || n == 0x2029 || n == 0x202F || n == 0x205F || n == 0x3000 || n == 0xFEFF
  }

  function SkipSpaces(s: string, i: nat): (j: nat)
    requires i <= |s|
    ensures i <= j <= |s|
    decreases |s| - i
  {
    if i < |s| && IsSpace(s[i]) then SkipSpaces(s, i + 1) else i
  }

  /** `a` and then `b` stand at `i`. */
  predicate Pair(s: string, i: nat, a: char, b: char) {
    i + 1 < |s| && s[i] == a && s[i + 1] == b
  }

  function Newlines(s: string): nat {
    if s == [] then 0 else Newlines(s[..|s| - 1]) + if s[|s| - 1] == '\n' then 1 else 0
  }

  /** Texts that break their lines at the same offsets count the same lines. */
  lemma {:induction false} SameLines(a: string, b: string, n: nat)
    requires |a| == |b| && n <= |a| && forall k :: 0 <= k < |a| ==> (a[k] == '\n' <==> b[k] == '\n')
    ensures Newlines(a[..n]) == Newlines(b[..n])
  {
    if n > 0 {
      assert a[..n][..n - 1] == a[..n - 1] && b[..n][..n - 1] == b[..n - 1];
      SameLines(a, b, n - 1);
    }
  }
}
