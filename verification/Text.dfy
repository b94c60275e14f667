/** Decimal numerals, string order and sorting, and trimming, as Python strings have them. */
module Text {
  import opened Sequences

  // -------------------------------------------------- decimal numerals

  function Digit(d: nat): char
    requires d < 10
  {
    ('0' as int + d) as char
  }

  function Decimal(n: nat): string {
    if n < 10 then [Digit(n)] else Decimal(n / 10) + [Digit(n % 10)]
  }

  function Numeral(n: int): string {
    if n < 0 then "-" + Decimal(-n) else Decimal(n)
  }

  ghost function DigitsValue(s: string): int {
    if s == [] then 0 else 10 * DigitsValue(s[..|s| - 1]) + (s[|s| - 1] as int - '0' as int)
  }

  lemma {:induction false} DecimalValue(n: nat)
    ensures DigitsValue(Decimal(n)) == n
    ensures |Decimal(n)| > 0 && forall i :: 0 <= i < |Decimal(n)| ==> '0' <= Decimal(n)[i] <= '9'
  {
    if n < 10 {
      assert Decimal(n)[..0] == [];
    } else {
      DecimalValue(n / 10);
      assert Decimal(n)[..|Decimal(n)| - 1] == Decimal(n / 10);
    }
  }

  lemma NumeralInjective(a: int, b: int)
    requires Numeral(a) == Numeral(b)
    ensures a == b
  {
    var x, y := if a < 0 then -a else a, if b < 0 then -b else b;
    DecimalValue(x);
    DecimalValue(y);
    assert a < 0 ==> Numeral(a)[0] == '-' && Numeral(a)[1..] == Decimal(x);
    assert b < 0 ==> Numeral(b)[0] == '-' && Numeral(b)[1..] == Decimal(y);
  }

  /** `f"{n:0{width}d}"` for a non-negative n. */
  function Padded(n: nat, width: nat): string {
    Zeros(width - |Decimal(n)|) + Decimal(n)
  }

  function Zeros(count: int): string {
    if count <= 0 then "" else Zeros(count - 1) + "0"
  }

  lemma {:induction false} ZerosValue(count: int, s: string)
    ensures DigitsValue(Zeros(count) + s) == DigitsValue(s)
    decreases |s|, count
  {
    if s != [] {
      ZerosValue(count, s[..|s| - 1]);
      assert (Zeros(count) + s)[..|Zeros(count) + s| - 1] == Zeros(count) + s[..|s| - 1];
    } else if count > 0 {
      ZerosValue(count - 1, []);
      assert Zeros(count) + [] == Zeros(count);
      assert Zeros(count - 1) + [] == Zeros(count - 1);
      assert Zeros(count)[..|Zeros(count)| - 1] == Zeros(count - 1);
    }
  }

  lemma PaddedInjective(a: nat, b: nat, width: nat)
    requires Padded(a, width) == Padded(b, width)
    ensures a == b
  {
    ZerosValue(width - |Decimal(a)|, Decimal(a));
    ZerosValue(width - |Decimal(b)|, Decimal(b));
    DecimalValue(a);
    DecimalValue(b);
  }

  lemma PrefixCancel(p: string, a: string, b: string)
    requires p + a == p + b
    ensures a == b
  {
    assert (p + a)[|p|..] == a;
    assert (p + b)[|p|..] == b;
  }

  // -------------------------------------------------- string order

  /** Code-point order with a proper prefix first. */
  predicate StrLe(a: string, b: string) {
    if a == [] then true
    else if b == [] then false
    else a[0] < b[0] || (a[0] == b[0] && StrLe(a[1..], b[1..]))
  }

  predicate StrLess(a: string, b: string) {
    StrLe(a, b) && a != b
  }

  lemma {:induction false} StrLeTotal(a: string, b: string)
    ensures StrLe(a, b) || StrLe(b, a)
    ensures StrLe(a, b) && StrLe(b, a) ==> a == b
  {
    if a != [] && b != [] && a[0] == b[0] {
      StrLeTotal(a[1..], b[1..]);
      assert a == [a[0]] + a[1..] && b == [b[0]] + b[1..];
    }
  }

  lemma {:induction false} StrLeTransitive(a: string, b: string, c: string)
    requires StrLe(a, b) && StrLe(b, c)
    ensures StrLe(a, c)
  {
    if a != [] && a[0] == b[0] == c[0] {
      StrLeTransitive(a[1..], b[1..], c[1..]);
    }
  }

  predicate SortedStrings(s: seq<string>) {
    forall i, j :: 0 <= i < j < |s| ==> StrLess(s[i], s[j])
  }

  ghost predicate IsLeast(s: set<string>, m: string) {
    m in s && forall x :: x in s ==> StrLe(m, x)
  }

  lemma {:induction false} LeastExists(s: set<string>)
    requires s != {}
    ensures exists m :: IsLeast(s, m)
    decreases |s|
  {
    var x := Member(s);
    StrLeTotal(x, x);
    if s == {x} {
      assert IsLeast(s, x);
    } else {
      LeastExists(s - {x});
      var m :| IsLeast(s - {x}, m);
      StrLeTotal(x, m);
      var least := if StrLe(x, m) then x else m;
      forall y | y in s ensures StrLe(least, y) {
        if y != x {
          assert y in s - {x};
          if least == x { StrLeTransitive(x, m, y); }
        }
      }
      assert IsLeast(s, least);
    }
  }

  function LeastString(s: set<string>): (m: string)
    requires s != {}
    ensures m in s
    ensures forall x :: x in s ==> StrLe(m, x)
  {
    LeastExists(s);
    LeastUnique(s);
    assert exists m :: m in s && forall x :: x in s ==> StrLe(m, x) by {
      var m :| IsLeast(s, m);
    }
    var m :| m in s && forall x :: x in s ==> StrLe(m, x);
    m
  }

  lemma LeastUnique(s: set<string>)
    ensures forall m, m' :: m in s && m' in s && (forall x :: x in s ==> StrLe(m, x)) && (forall x :: x in s ==> StrLe(m', x)) ==> m == m'
  {
    forall m, m' | m in s && m' in s && (forall x :: x in s ==> StrLe(m, x)) && (forall x :: x in s ==> StrLe(m', x))
      ensures m == m'
    {
      StrLeTotal(m, m');
    }
  }

  /** `sorted(s)` on a set of strings. */
  function SortStrings(s: set<string>): (r: seq<string>)
    ensures Elems(r) == s
    ensures SortedStrings(r)
    decreases |s|
  {
    if s == {} then []
    else
      var m := LeastString(s);
      var rest := SortStrings(s - {m});
      PrependLeast(m, rest);
      [m] + rest
  }

  lemma PrependLeast(m: string, rest: seq<string>)
    requires SortedStrings(rest)
    requires forall x :: x in Elems(rest) ==> StrLess(m, x)
    ensures SortedStrings([m] + rest)
    ensures Elems([m] + rest) == {m} + Elems(rest)
  {
    ElemsConcat([m], rest);
    assert Elems([m]) == {m};
    var s := [m] + rest;
    forall i, j | 0 <= i < j < |s| ensures StrLess(s[i], s[j]) {
      assert s[j] == rest[j - 1] && rest[j - 1] in Elems(rest);
      if i > 0 { assert s[i] == rest[i - 1]; }
    }
  }

  lemma SortedDistinct(s: seq<string>)
    requires SortedStrings(s)
    ensures Distinct(s)
  {
  }

  // -------------------------------------------------- trimming

  /** The white space that `str.strip` removes, up to U+00A0. */
  predicate IsSpace(c: char) {
    '\t' <= c <= '\r' || '\U{1C}' <= c <= ' ' || c == '\U{85}' || c == '\U{A0}'
  }

  function StripLeft(s: string): string {
    if s != [] && IsSpace(s[0]) then StripLeft(s[1..]) else s
  }

  function StripRight(s: string): string {
    if s != [] && IsSpace(s[|s| - 1]) then StripRight(s[..|s| - 1]) else s
  }

  function Strip(s: string): string {
    StripRight(StripLeft(s))
  }

  predicate Trimmed(s: string) {
    Strip(s) == s
  }

  lemma {:induction false} StripLeftResult(s: string)
    ensures StripLeft(s) == [] || !IsSpace(StripLeft(s)[0])
  {
    if s != [] && IsSpace(s[0]) { StripLeftResult(s[1..]); }
  }

  lemma {:induction false} StripRightResult(s: string)
    ensures StripRight(s) == [] || !IsSpace(StripRight(s)[|StripRight(s)| - 1])
    ensures StripRight(s) <= s
  {
    if s != [] && IsSpace(s[|s| - 1]) { StripRightResult(s[..|s| - 1]); }
  }

  lemma {:induction false} LeftAway(s: string)
    ensures StripLeft(s) == "" <==> forall k :: 0 <= k < |s| ==> IsSpace(s[k])
  {
    if s != [] && IsSpace(s[0]) {
      LeftAway(s[1..]);
      assert forall k :: 0 < k < |s| ==> s[k] == s[1..][k - 1];
    }
  }

  lemma {:induction false} RightAway(s: string)
    ensures StripRight(s) == "" <==> forall k :: 0 <= k < |s| ==> IsSpace(s[k])
  {
    if s != [] && IsSpace(s[|s| - 1]) { RightAway(s[..|s| - 1]); }
  }

  /** Nothing is left of a string exactly when it is all white space. */
  lemma StrippedAway(s: string)
    ensures Strip(s) == "" <==> forall k :: 0 <= k < |s| ==> IsSpace(s[k])
  {
    hide IsSpace;
    LeftAway(s);
    RightAway(StripLeft(s));
    StripLeftResult(s);
    assert StripLeft(s) != "" ==> !IsSpace(StripLeft(s)[0]);
  }

  lemma StripIsTrimmed(s: string)
    ensures Trimmed(Strip(s))
  {
    StripLeftResult(s);
    StripRightResult(StripLeft(s));
  }
}
