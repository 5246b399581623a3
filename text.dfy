/** Python string operations the query builders rely on: `str(int)`, `str.replace`, and the
    alphabetical order of `sorted`/`dir()`. */
module Text {
  import opened Seqs

  function Digit(d: nat): (c: char)
    requires d < 10
    ensures '0' <= c <= '9'
  {
    ('0' as int + d) as char
  }

  function NatToDecimal(n: nat): (r: string)
    decreases n
    ensures |r| >= 1
    ensures forall i :: 0 <= i < |r| ==> '0' <= r[i] <= '9'
  {
    if n < 10 then [Digit(n)] else NatToDecimal(n / 10) + [Digit(n % 10)]
  }

  /** Python `str(n)` for an `int`: an optional minus sign and decimal digits. */
  function IntToDecimal(n: int): (r: string)
    ensures |r| >= 1
    ensures forall i :: 0 <= i < |r| ==> ('0' <= r[i] <= '9') || (i == 0 && r[i] == '-' && n < 0)
  {
    if n < 0 then "-" + NatToDecimal(-n) else NatToDecimal(n)
  }

  /** The value of a string of decimal digits, read most significant digit first. */
  function DecimalValue(s: string): int
    decreases |s|
  {
    if s == [] then 0 else DecimalValue(s[..|s| - 1]) * 10 + (s[|s| - 1] as int - '0' as int)
  }

  /** Reading the digits back gives the number: `int(str(n)) == n`. */
  lemma {:induction false} DecimalRoundTrip(n: nat)
    ensures DecimalValue(NatToDecimal(n)) == n
  {
    if n >= 10 {
      DecimalRoundTrip(n / 10);
      var s := NatToDecimal(n / 10) + [Digit(n % 10)];
      assert s[..|s| - 1] == NatToDecimal(n / 10);
    }
  }

  /** Python `s.replace(target, replacement)` for a non-empty `target`: every occurrence found left to
      right, without overlap, is replaced. */
  function Replace(s: string, target: string, replacement: string): (r: string)
    requires |target| > 0
  {
    Join(Split(s, target), replacement)
  }

  /** Replacing a string that does not occur changes nothing. */
  lemma ReplaceAbsent(s: string, target: string, replacement: string)
    requires |target| > 0 && !Contains(s, target)
    ensures Replace(s, target, replacement) == s
  {
    assert Find(s, target) == -1;
    assert Split(s, target) == [s];
  }

  /** Python `a < b` on `str`: lexicographic by code point, a proper prefix first. */
  predicate LexLess(a: string, b: string)
    decreases |a|
  {
    |b| > 0 && (|a| == 0 || a[0] < b[0] || (a[0] == b[0] && LexLess(a[1..], b[1..])))
  }

  lemma {:induction false} LexLessAsymmetric(a: string, b: string)
    requires LexLess(a, b)
    ensures !LexLess(b, a)
  {
    if |a| > 0 && a[0] == b[0] {
      LexLessAsymmetric(a[1..], b[1..]);
    }
  }

  lemma {:induction false} LexLessTotal(a: string, b: string)
    requires a != b
    ensures LexLess(a, b) || LexLess(b, a)
  {
    if |a| > 0 && |b| > 0 && a[0] == b[0] {
      assert a == [a[0]] + a[1..] && b == [b[0]] + b[1..];
      LexLessTotal(a[1..], b[1..]);
    }
  }

  /** Adjacent elements are in order: no element is smaller than its predecessor. */
  predicate Sorted(s: seq<string>) {
    forall i :: 0 < i < |s| ==> !LexLess(s[i], s[i - 1])
  }

  function Insert(x: string, s: seq<string>): (r: seq<string>)
    decreases |s|
    ensures |r| == |s| + 1
    ensures r[0] == x || (|s| > 0 && r[0] == s[0])
    ensures multiset(r) == multiset(s) + multiset{x}
  {
    if s == [] then [x]
    else if LexLess(s[0], x) then
      assert s == [s[0]] + s[1..];
      [s[0]] + Insert(x, s[1..])
    else [x] + s
  }

  lemma {:induction false} InsertSorted(x: string, s: seq<string>)
    requires Sorted(s)
    ensures Sorted(Insert(x, s))
  {
    if s != [] && LexLess(s[0], x) {
      InsertSorted(x, s[1..]);
      LexLessAsymmetric(s[0], x);
      var r := Insert(x, s);
      assert r[1..] == Insert(x, s[1..]);
    }
  }

  /** Python `sorted(names)` (insertion sort; the order is the same for distinct names). */
  function Sort(names: seq<string>): (r: seq<string>)
    decreases |names|
    ensures multiset(r) == multiset(names)
  {
    if names == [] then []
    else
      assert names == [names[0]] + names[1..];
      Insert(names[0], Sort(names[1..]))
  }

  /** `sorted` returns its input in order and as a permutation. */
  lemma {:induction false} SortSorted(names: seq<string>)
    ensures Sorted(Sort(names)) && multiset(Sort(names)) == multiset(names)
  {
    if names != [] {
      SortSorted(names[1..]);
      InsertSorted(names[0], Sort(names[1..]));
    }
  }
}
