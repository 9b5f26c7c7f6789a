/** Colours for task types: stepping through the palette by a number coprime to its size. */
module Palette {
  import opened Digraph

  function Gcd(a: nat, b: nat): nat
    decreases b
  {
    if b == 0 then a else Gcd(b, a % b)
  }

  lemma {:induction false} Bezout(a: nat, b: nat) returns (x: int, y: int)
    ensures a * x + b * y == Gcd(a, b)
    decreases b
  {
    if b == 0 {
      x, y := 1, 0;
    } else {
      var x', y' := Bezout(b, a % b);
      x, y := y', x' - (a / b) * y';
      BezoutStep(a, b, a / b, a % b, x', y');
    }
  }

  lemma BezoutStep(a: int, b: int, q: int, r: int, x: int, y: int)
    requires a == b * q + r
    ensures a * y + b * (x - q * y) == b * x + r * y
  {
  }

  /** A successor of a multiple of n is coprime to n. */
  lemma CoprimeToSuccessor(m: nat, n: nat)
    requires n > 1 && m % n == 1
    ensures Gcd(m, n) == 1
  {
  }

  /** Among n consecutive numbers one is coprime to n. */
  lemma CoprimeInWindow(target: nat, n: nat) returns (m: nat)
    requires n > 1
    ensures target <= m < target + n && Gcd(m, n) == 1
  {
    m := if target % n <= 1 then target + 1 - target % n else target + n + 1 - target % n;
    assert m % n == 1 by {
      var q := target / n;
      assert target == n * q + target % n;
      if target % n <= 1 {
        assert m == n * q + 1;
        ModOfMultiple(n, q, 1);
      } else {
        assert m == n * (q + 1) + 1;
        ModOfMultiple(n, q + 1, 1);
      }
    }
    CoprimeToSuccessor(m, n);
  }

  lemma SmallMultiple(n: int, d: int)
    requires -n < n * d < n
    ensures d == 0
  {
  }

  lemma ModOfMultiple(n: nat, q: int, r: nat)
    requires n > 0 && r < n
    ensures (n * q + r) % n == r
  {
    var m := n * q + r;
    var p := m / n;
    assert m == n * p + m % n;
    assert n * q - n * p == n * (q - p);
    SmallMultiple(n, q - p);
  }

  ghost predicate Multiple(n: nat, d: int) {
    exists q: int :: d == n * q
  }

  lemma CongruentExactly(n: nat, a: nat, b: nat)
    requires n > 0
    ensures a % n == b % n <==> Multiple(n, a - b)
  {
    assert a == n * (a / n) + a % n && b == n * (b / n) + b % n;
    if a % n == b % n {
      assert a - b == n * (a / n - b / n) by {
        assert n * (a / n) - n * (b / n) == n * (a / n - b / n);
      }
    } else if Multiple(n, a - b) {
      var q: int :| a - b == n * q;
      assert a == n * (b / n + q) + b % n by {
        assert n * (b / n) + n * q == n * (b / n + q);
      }
      ModOfMultiple(n, b / n + q, b % n);
      assert false;
    }
  }

  /** The step is the first number from just above half the size on that is coprime to the size;
      the search never runs out. */
  method ChoosePaletteStep(length: nat) returns (step: nat)
    ensures length <= 1 ==> step == 1
    ensures length > 1 ==>
              && length / 2 + 1 <= step < length / 2 + 1 + length
              && Gcd(step, length) == 1
              && forall s: nat :: length / 2 + 1 <= s < step ==> Gcd(s, length) != 1
  {
    if length <= 1 {
      return 1;
    }
    var target := length / 2 + 1;
    step := target;
    while step < target + length
      invariant target <= step <= target + length
      invariant forall s: nat :: target <= s < step ==> Gcd(s, length) != 1
    {
      if Gcd(step, length) == 1 {
        return;
      }
      step := step + 1;
    }
    var coprime := CoprimeInWindow(target, length);
    assert false;
  }

  lemma MulAssoc(a: int, b: int, c: int)
    ensures a * (b * c) == (a * b) * c
  {
  }

  lemma SumOfMultiples(n: int, d: int, a: int, b: int, p: int, q: int)
    requires a + b == 1 && d * a == n * p && d * b == n * q
    ensures d == n * (p + q)
  {
  }

  lemma CancelCoprime(n: nat, step: nat, d: int, k: int)
    requires Gcd(step, n) == 1 && d * step == n * k
    ensures Multiple(n, d)
  {
    var x, y := Bezout(step, n);
    MulAssoc(d, step, x);
    MulAssoc(n, k, x);
    MulAssoc(d, n, y);
    MulAssoc(n, d, y);
    SumOfMultiples(n, d, step * x, n * y, k * x, d * y);
  }

  /** Two indexes get the same palette entry exactly when they are congruent modulo its size. */
  lemma SameEntryExactly(n: nat, step: nat, i: nat, j: nat)
    requires n > 0 && Gcd(step, n) == 1
    ensures EntryOf(i, step, n) == EntryOf(j, step, n) <==> i % n == j % n
  {
    CongruentExactly(n, i * step, j * step);
    CongruentExactly(n, i, j);
    ScaledDifference(n, step, i, j);
    if Multiple(n, i * step - j * step) {
      var k: int :| i * step - j * step == n * k;
      CancelCoprime(n, step, i - j, k);
    }
  }

  lemma ScaledDifference(n: nat, step: nat, i: int, j: int)
    ensures (i - j) * step == i * step - j * step
    ensures Multiple(n, i - j) ==> Multiple(n, i * step - j * step)
  {
    if Multiple(n, i - j) {
      var q: int :| i - j == n * q;
      MulAssoc(n, q, step);
      assert i * step - j * step == n * (q * step);
    }
  }

  function EntryOf(index: nat, step: nat, n: nat): (entry: nat)
    requires n > 0
    ensures entry < n
  {
    (index * step) % n
  }

  method FillColors(names: seq<string>, palette: seq<string>, step: nat) returns (colors: map<string, string>)
    requires NoDup(names) && palette != []
    ensures colors.Keys == Elems(names)
    ensures forall i :: 0 <= i < |names| ==> colors[names[i]] == palette[EntryOf(i, step, |palette|)]
  {
    colors := map[];
    for index := 0 to |names|
      invariant colors.Keys == Elems(names[..index])
      invariant forall i :: 0 <= i < index ==> colors[names[i]] == palette[EntryOf(i, step, |palette|)]
    {
      ElemsConcat(names[..index], [names[index]]);
      ElemsOne(names[index]);
      assert names[..index + 1] == names[..index] + [names[index]];
      colors := colors[names[index] := palette[EntryOf(index, step, |palette|)]];
    }
    assert names[..|names|] == names;
  }

  lemma CoprimeToOne(n: nat)
    requires n == 1
    ensures Gcd(1, n) == 1
  {
  }

  /** The first number from just above half the size on that is coprime to the size. */
  ghost predicate IsStep(step: nat, n: nat) {
    if n <= 1 then step == 1
    else n / 2 + 1 <= step && Gcd(step, n) == 1 && forall s: nat :: n / 2 + 1 <= s < step ==> Gcd(s, n) != 1
  }

  /** Names take palette entries in the order given, stepping through the palette.  Two names share
      an entry exactly when their places are congruent, so no two of the first `|palette|` do. */
  method AssignColors(names: seq<string>, palette: seq<string>) returns (colors: map<string, string>)
    requires NoDup(names) && palette != [] && NoDup(palette)
    ensures colors.Keys == Elems(names)
    ensures forall i :: 0 <= i < |names| ==> colors[names[i]] in palette
    ensures exists step :: IsStep(step, |palette|)
              && forall i :: 0 <= i < |names| ==> colors[names[i]] == palette[(i * step) % |palette|]
    ensures forall i, j :: 0 <= i < |names| && 0 <= j < |names| ==>
              (colors[names[i]] == colors[names[j]] <==> i % |palette| == j % |palette|)
  {
    var step := ChoosePaletteStep(|palette|);
    if |palette| == 1 {
      CoprimeToOne(|palette|);
    }
    colors := FillColors(names, palette, step);
    assert IsStep(step, |palette|);
    forall i: nat, j: nat | i < |names| && j < |names|
      ensures EntryOf(i, step, |palette|) == EntryOf(j, step, |palette|) <==> i % |palette| == j % |palette|
    {
      SameEntryExactly(|palette|, step, i, j);
    }
  }
}
