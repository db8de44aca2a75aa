/** Strings as the pipeline uses them: code-point order, zero-padded decimals and '/'-separated segments. */
module Text {

  datatype Option<+T> = None | Some(value: T)

  /** Lexicographic `<=` on code points, the order Python and Rust give strings. */
  predicate Le(a: string, b: string) {
    if a == [] then true
    else if b == [] then false
    else if a[0] != b[0] then a[0] < b[0]
    else Le(a[1..], b[1..])
  }

  lemma {:induction false} LeTotal(a: string, b: string)
    ensures Le(a, a)
    ensures Le(a, b) || Le(b, a)
    ensures Le(a, b) && Le(b, a) ==> a == b
  {
    if a != [] {
      LeTotal(a[1..], if b == [] then [] else b[1..]);
      if b != [] && a[0] == b[0] && Le(a, b) && Le(b, a) {
        assert a == [a[0]] + a[1..] && b == [b[0]] + b[1..];
      }
    }
  }

  lemma {:induction false} LeTransitive(a: string, b: string, c: string)
    requires Le(a, b) && Le(b, c)
    ensures Le(a, c)
  {
    if a != [] && a[0] == b[0] && b[0] == c[0] {
      LeTransitive(a[1..], b[1..], c[1..]);
    }
  }

  /** A common prefix does not affect the order. */
  lemma {:induction false} LePrefix(p: string, a: string, b: string)
    ensures Le(p + a, p + b) <==> Le(a, b)
  {
    if p == [] {
      assert p + a == a && p + b == b;
    } else {
      assert (p + a)[1..] == p[1..] + a && (p + b)[1..] == p[1..] + b;
      LePrefix(p[1..], a, b);
    }
  }

  // ---- decimals ----------------------------------------------------------

  function Digit(n: nat): (c: char)
    requires n < 10
    ensures '0' <= c <= '9' && c as int == 48 + n
  {
    (48 + n) as char
  }

  predicate AllDigits(s: string) {
    forall c :: c in s ==> '0' <= c <= '9'
  }

  function Pow10(w: nat): (p: nat)
    ensures p > 0
  {
    if w == 0 then 1 else 10 * Pow10(w - 1)
  }

  /** The low `w` decimal digits of `n`, most significant first (`{:0w}` when `n` fits in `w` digits). */
  function Pad(n: nat, w: nat): (s: string)
    ensures |s| == w && AllDigits(s)
  {
    if w == 0 then [] else Pad(n / 10, w - 1) + [Digit(n % 10)]
  }

  /** Decimal of `n`, zero-padded to at least `w` digits: Rust's `{:0w}`. */
  function PadMin(n: nat, w: nat): (s: string)
    ensures |s| >= 1 && |s| >= w && AllDigits(s)
    decreases n + w
  {
    if n < 10 && w <= 1 then [Digit(n)]
    else PadMin(n / 10, if w == 0 then 0 else w - 1) + [Digit(n % 10)]
  }

  function DecimalValue(s: string): int {
    if s == [] then 0 else 10 * DecimalValue(s[..|s| - 1]) + (s[|s| - 1] as int - 48)
  }

  lemma {:induction false} PadMinValue(n: nat, w: nat)
    ensures DecimalValue(PadMin(n, w)) == n
    decreases n + w
  {
    var s := PadMin(n, w);
    if n < 10 && w <= 1 {
      assert s[..0] == [];
    } else {
      var v := if w == 0 then 0 else w - 1;
      PadMinValue(n / 10, v);
      assert s[..|s| - 1] == PadMin(n / 10, v);
    }
  }

  lemma {:induction false} PadValue(n: nat, w: nat)
    requires n < Pow10(w)
    ensures DecimalValue(Pad(n, w)) == n
  {
    if w > 0 {
      PadValue(n / 10, w - 1);
      assert Pad(n, w)[..w - 1] == Pad(n / 10, w - 1);
    }
  }

  /** Fixed-width decimals compare like numbers; on a tie the text after them decides. */
  lemma {:induction false} PadOrder(n: nat, m: nat, w: nat, x: string, y: string)
    requires n < Pow10(w) && m < Pow10(w)
    ensures Le(Pad(n, w) + x, Pad(m, w) + y) <==> n < m || (n == m && Le(x, y))
  {
    if w == 0 {
      assert Pad(n, w) + x == x && Pad(m, w) + y == y;
    } else {
      var x', y' := [Digit(n % 10)] + x, [Digit(m % 10)] + y;
      assert Pad(n, w) + x == Pad(n / 10, w - 1) + x';
      assert Pad(m, w) + y == Pad(m / 10, w - 1) + y';
      PadOrder(n / 10, m / 10, w - 1, x', y');
      assert x'[1..] == x && y'[1..] == y;
    }
  }

  // ---- segments ----------------------------------------------------------

  predicate Without(s: string, c: char) {
    forall i :: 0 <= i < |s| ==> s[i] != c
  }

  lemma DigitsWithout(s: string, c: char)
    requires AllDigits(s) && !('0' <= c <= '9')
    ensures Without(s, c)
  {
    forall i | 0 <= i < |s| ensures s[i] != c {
      assert s[i] in s;
    }
  }

  /** The text before the first `c` and the text after it are determined by the whole. */
  lemma SplitFirst(a: string, x: string, b: string, y: string, c: char)
    requires Without(a, c) && Without(b, c)
    requires a + [c] + x == b + [c] + y
    ensures a == b && x == y
  {
    var s, t := a + [c] + x, b + [c] + y;
    assert s[|a|] == c && t[|b|] == c;
    assert |a| == |b|;
    assert a == s[..|a|] && b == t[..|b|];
    assert x == s[|a| + 1..] && y == t[|b| + 1..];
  }

  /** The text before the last `c` and the text after it are determined by the whole. */
  lemma SplitLast(x: string, a: string, y: string, b: string, c: char)
    requires Without(a, c) && Without(b, c)
    requires x + [c] + a == y + [c] + b
    ensures a == b && x == y
  {
    var s, t := x + [c] + a, y + [c] + b;
    assert s[|x|] == c && t[|y|] == c;
    assert |x| == |y|;
    assert x == s[..|x|] && y == t[..|y|];
    assert a == s[|x| + 1..] && b == t[|y| + 1..];
  }

  /** Cutting equal texts at the same distance from the end. */
  lemma CutSuffix(x: string, a: string, y: string, b: string)
    requires |a| == |b| && x + a == y + b
    ensures x == y && a == b
  {
    assert x == (x + a)[..|x|] && y == (y + b)[..|x|];
    assert a == (x + a)[|x|..] && b == (y + b)[|y|..];
  }

  // ---- split -------------------------------------------------------------------------

  /** Python's `split(c)`. */
  function Split(s: string, c: char): (parts: seq<string>)
    ensures |parts| >= 1
  {
    if s == [] then [""]
    else
      var rest := Split(s[1..], c);
      if s[0] == c then [""] + rest else [[s[0]] + rest[0]] + rest[1..]
  }

  lemma {:induction false} SplitWhole(a: string, c: char)
    requires Without(a, c)
    ensures Split(a, c) == [a]
  {
    if a != [] {
      SplitWhole(a[1..], c);
      assert [a[0]] + a[1..] == a;
    }
  }

  lemma {:induction false} SplitHead(a: string, rest: string, c: char)
    requires Without(a, c)
    ensures Split(a + [c] + rest, c) == [a] + Split(rest, c)
  {
    var s := a + [c] + rest;
    if a == [] {
      assert s[1..] == rest;
    } else {
      SplitHead(a[1..], rest, c);
      assert s[1..] == a[1..] + [c] + rest;
      assert [a[0]] + a[1..] == a;
    }
  }

  // ---- join --------------------------------------------------------------------------

  /** Python's `c.join(parts)`. */
  function Join(parts: seq<string>, c: char): string {
    if parts == [] then "" else if |parts| == 1 then parts[0] else parts[0] + [c] + Join(parts[1..], c)
  }

  lemma {:induction false} JoinAt(parts: seq<string>, k: nat, c: char)
    requires 0 < k < |parts|
    ensures Join(parts, c) == Join(parts[..k], c) + [c] + Join(parts[k..], c)
  {
    if k == 1 {
      assert parts[..1] == [parts[0]];
    } else {
      JoinAt(parts[1..], k - 1, c);
      assert parts[1..][..k - 1] == parts[..k][1..] && parts[1..][k - 1..] == parts[k..];
    }
  }

  /** `join` inverts `split`, whose parts do not contain the separator. */
  lemma {:induction false} JoinOfSplit(s: string, c: char)
    ensures Join(Split(s, c), c) == s
    ensures forall i :: 0 <= i < |Split(s, c)| ==> Without(Split(s, c)[i], c)
  {
    if s != [] {
      JoinOfSplit(s[1..], c);
      var parts, rest := Split(s, c), Split(s[1..], c);
      if s[0] == c {
        assert parts[1..] == rest;
      } else {
        assert parts[1..] == rest[1..] && parts[0] == [s[0]] + rest[0];
      }
      assert [s[0]] + s[1..] == s;
    }
  }

  /** What `split` finds at the start of a text: the parts before the first separator left over. */
  lemma {:induction false} SplitStartsWith(parts: seq<string>, rest: string, c: char)
    requires parts != [] && (forall i :: 0 <= i < |parts| ==> Without(parts[i], c)) && (rest == [] || rest[0] == c)
    ensures parts <= Split(Join(parts, c) + rest, c)
  {
    if |parts| > 1 {
      SplitStartsWith(parts[1..], rest, c);
      SplitHead(parts[0], Join(parts[1..], c) + rest, c);
      assert Join(parts, c) + rest == parts[0] + [c] + (Join(parts[1..], c) + rest);
      assert parts == [parts[0]] + parts[1..];
    } else if rest == [] {
      SplitWhole(parts[0], c);
      assert parts[0] + rest == parts[0];
    } else {
      SplitHead(parts[0], rest[1..], c);
      assert parts[0] + rest == parts[0] + [c] + rest[1..];
    }
  }
}
