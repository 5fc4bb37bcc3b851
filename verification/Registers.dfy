/** Registers that take in a message piece by piece and take a division step after each: the laws
    that do not depend on the width of the register, the polynomial or the size of a piece. */
module Registers {

  function Iterate<T>(f: T -> T, c: T, k: nat): T
    decreases k
  {
    if k == 0 then c else Iterate(f, f(c), k - 1)
  }

  /** Each piece is combined into the register, and a step follows. */
  function Divided<T>(f: T -> T, op: (T, T) -> T, c: T, pieces: seq<T>): T {
    if pieces == [] then c
    else f(op(Divided(f, op, c, pieces[..|pieces| - 1]), pieces[|pieces| - 1]))
  }

  function Flattened<S, T>(bitsOf: S -> seq<T>, str: seq<S>): seq<T> {
    if str == [] then [] else Flattened(bitsOf, str[..|str| - 1]) + bitsOf(str[|str| - 1])
  }

  function Words<S, T>(embed: S -> T, str: seq<S>): (r: seq<T>)
    ensures |r| == |str|
  {
    seq(|str|, i requires 0 <= i < |str| => embed(str[i]))
  }

  /** The recursion of a table-driven checksum from the end of the string to its start. */
  function Folded<S, T>(combine: (S, T) -> T, init: T, idx: int, str: seq<S>): T
    requires -1 <= idx < |str|
    decreases idx + 1
  {
    if idx == -1 then init else combine(str[idx], Folded(combine, init, idx - 1, str))
  }

  ghost predicate Linear<T(!new)>(f: T -> T, op: (T, T) -> T) {
    forall a, b :: f(op(a, b)) == op(f(a), f(b))
  }

  ghost predicate Injective<T(!new)>(f: T -> T) {
    forall a, b :: f(a) == f(b) ==> a == b
  }

  ghost predicate Cancels<T(!new)>(op: (T, T) -> T) {
    forall a, b, x :: op(a, x) == op(b, x) ==> a == b
  }

  // ---------------------------------------------------------------- steps

  lemma {:induction false} IterateLinear<T(!new)>(f: T -> T, op: (T, T) -> T, a: T, b: T, k: nat)
    requires Linear(f, op)
    ensures Iterate(f, op(a, b), k) == op(Iterate(f, a, k), Iterate(f, b, k))
    decreases k
  {
    if k > 0 {
      IterateLinear(f, op, f(a), f(b), k - 1);
    }
  }

  lemma {:induction false} IterateMore<T>(f: T -> T, c: T, k: nat)
    ensures Iterate(f, c, k + 1) == f(Iterate(f, c, k))
    decreases k
  {
    if k > 0 {
      IterateMore(f, f(c), k - 1);
    }
  }

  /** Steps that lose nothing one by one lose nothing together. */
  lemma {:induction false} IterateInjective<T(!new)>(f: T -> T, a: T, b: T, k: nat)
    requires Injective(f) && Iterate(f, a, k) == Iterate(f, b, k)
    ensures a == b
    decreases k
  {
    if k > 0 {
      IterateInjective(f, f(a), f(b), k - 1);
    }
  }

  lemma IterateSmall<T>(f: T -> T, c: T)
    ensures Iterate(f, c, 0) == c && Iterate(f, c, 1) == f(c) && Iterate(f, c, 2) == f(f(c))
    ensures Iterate(f, c, 3) == f(f(f(c))) && Iterate(f, c, 4) == f(f(f(f(c))))
  {
    IterateFour(f, c);
    assert Iterate(f, c, 3) == Iterate(f, f(c), 2) == Iterate(f, f(f(c)), 1) == Iterate(f, f(f(f(c))), 0);
    assert Iterate(f, c, 2) == Iterate(f, f(c), 1) == Iterate(f, f(f(c)), 0);
  }

  lemma Chain<T>(f: T -> T, w3: T, w2: T, w1: T, w0: T)
    requires f(w3) == w2 && f(w2) == w1 && f(w1) == w0
    ensures Iterate(f, w0, 0) == Iterate(f, w1, 1) == Iterate(f, w2, 2) == Iterate(f, w3, 3) == w0
  {
    IterateSmall(f, w1);
    IterateSmall(f, w2);
    IterateSmall(f, w3);
  }

  lemma {:induction false} IterateSum<T>(f: T -> T, c: T, j: nat, k: nat)
    ensures Iterate(f, c, j + k) == Iterate(f, Iterate(f, c, j), k)
    decreases j
  {
    if j > 0 {
      IterateSum(f, f(c), j - 1, k);
    }
  }

  lemma IterateFour<T>(f: T -> T, c: T)
    ensures Iterate(f, c, 4) == f(f(f(f(c))))
  {
    assert Iterate(f, c, 4) == Iterate(f, f(c), 3) == Iterate(f, f(f(c)), 2);
    assert Iterate(f, f(f(c)), 2) == Iterate(f, f(f(f(c))), 1) == Iterate(f, f(f(f(f(c)))), 0);
  }

  lemma IterateEight<T>(f: T -> T, c: T)
    ensures Iterate(f, c, 8) == f(f(f(f(f(f(f(f(c))))))))
  {
    var d := f(f(f(f(c))));
    assert Iterate(f, c, 8) == Iterate(f, f(c), 7) == Iterate(f, f(f(c)), 6);
    assert Iterate(f, f(f(c)), 6) == Iterate(f, f(f(f(c))), 5) == Iterate(f, d, 4);
    IterateFour(f, d);
  }

  /** A part z of the register that k steps only halve, whatever the other part y is. */
  lemma {:induction false} HalvedSteps<T(!new)>(
    f: T -> T, op: (T, T) -> T, half: T -> T, even: T -> bool, z: T, y: T, k: nat)
    requires forall u, v :: even(u) ==> f(op(u, v)) == op(half(u), f(v))
    requires forall i :: 0 <= i < k ==> even(Iterate(half, z, i))
    ensures Iterate(f, op(z, y), k) == op(Iterate(half, z, k), Iterate(f, y, k))
    decreases k
  {
    if k > 0 {
      assert even(Iterate(half, z, 0));
      forall i | 0 <= i < k - 1
        ensures even(Iterate(half, half(z), i))
      {
        assert even(Iterate(half, z, i + 1));
      }
      HalvedSteps(f, op, half, even, half(z), f(y), k - 1);
    }
  }

  // ---------------------------------------------------------------- pieces

  lemma {:induction false} DividedConcat<T>(f: T -> T, op: (T, T) -> T, c: T, a: seq<T>, b: seq<T>)
    ensures Divided(f, op, c, a + b) == Divided(f, op, Divided(f, op, c, a), b)
  {
    if b == [] {
      assert a + b == a;
    } else {
      DividedConcat(f, op, c, a, b[..|b| - 1]);
      assert (a + b)[..|a + b| - 1] == a + b[..|b| - 1];
    }
  }

  lemma {:induction false} DividedInjective<T(!new)>(f: T -> T, op: (T, T) -> T, a: T, b: T, pieces: seq<T>)
    requires Injective(f) && Cancels(op) && Divided(f, op, a, pieces) == Divided(f, op, b, pieces)
    ensures a == b
  {
    if pieces != [] {
      DividedInjective(f, op, a, b, pieces[..|pieces| - 1]);
    }
  }

  function Combined<T>(op: (T, T) -> T, c: T, words: seq<T>): T {
    if words == [] then c else op(Combined(op, c, words[..|words| - 1]), words[|words| - 1])
  }

  /** Pieces taken one by one are words taken together, when the k-th word needs k steps to
      become the k-th piece. */
  lemma {:induction false} PiecesTogether<T(!new)>(f: T -> T, op: (T, T) -> T, c: T, pieces: seq<T>, words: seq<T>)
    requires Linear(f, op) && |words| == |pieces|
    requires forall k :: 0 <= k < |pieces| ==> Iterate(f, words[k], k) == pieces[k]
    ensures Divided(f, op, c, pieces) == Iterate(f, Combined(op, c, words), |pieces|)
  {
    if pieces != [] {
      var n := |pieces| - 1;
      PiecesTogether(f, op, c, pieces[..n], words[..n]);
      var x := Combined(op, c, words[..n]);
      IterateLinear(f, op, x, words[n], n);
      IterateMore(f, op(x, words[n]), n);
    }
  }

  // ---------------------------------------------------------------- strings

  /** `g` takes a whole symbol where `f` takes its bits one by one. */
  ghost predicate WholeSymbols<S(!new), T(!new)>(
    g: T -> T, f: T -> T, op: (T, T) -> T, embed: S -> T, bitsOf: S -> seq<T>)
  {
    forall b, c :: Divided(f, op, c, bitsOf(b)) == g(op(c, embed(b)))
  }

  ghost predicate CombinesAs<S(!new), T(!new)>(combine: (S, T) -> T, g: T -> T, op: (T, T) -> T, embed: S -> T) {
    forall b, c :: combine(b, c) == g(op(c, embed(b)))
  }

  lemma {:induction false} FlattenedIsWords<S(!new), T(!new)>(
    g: T -> T, f: T -> T, op: (T, T) -> T, embed: S -> T, bitsOf: S -> seq<T>, c: T, str: seq<S>)
    requires WholeSymbols(g, f, op, embed, bitsOf)
    ensures Divided(f, op, c, Flattened(bitsOf, str)) == Divided(g, op, c, Words(embed, str))
  {
    if str != [] {
      var n := |str| - 1;
      FlattenedIsWords(g, f, op, embed, bitsOf, c, str[..n]);
      DividedConcat(f, op, c, Flattened(bitsOf, str[..n]), bitsOf(str[n]));
      assert Words(embed, str)[..n] == Words(embed, str[..n]);
    }
  }

  lemma {:induction false} FoldedIsWords<S(!new), T(!new)>(
    combine: (S, T) -> T, g: T -> T, op: (T, T) -> T, embed: S -> T, init: T, idx: int, str: seq<S>)
    requires -1 <= idx < |str| && CombinesAs(combine, g, op, embed)
    ensures Folded(combine, init, idx, str) == Divided(g, op, init, Words(embed, str[..idx + 1]))
    decreases idx + 1
  {
    if idx >= 0 {
      FoldedIsWords(combine, g, op, embed, init, idx - 1, str);
      assert Words(embed, str[..idx + 1])[..idx] == Words(embed, str[..idx]);
    }
  }

  lemma WordsConcat<S, T>(embed: S -> T, a: seq<S>, b: seq<S>)
    ensures Words(embed, a + b) == Words(embed, a) + Words(embed, b)
  {}

  /** The table-driven recursion and the bit-at-a-time division agree on every string. */
  lemma FoldedIsFlattened<S(!new), T(!new)>(combine: (S, T) -> T, g: T -> T, f: T -> T, op: (T, T) -> T,
                                            embed: S -> T, bitsOf: S -> seq<T>, init: T, str: seq<S>)
    requires CombinesAs(combine, g, op, embed) && WholeSymbols(g, f, op, embed, bitsOf)
    ensures Folded(combine, init, |str| - 1, str) == Divided(f, op, init, Flattened(bitsOf, str))
  {
    FoldedIsWords(combine, g, op, embed, init, |str| - 1, str);
    assert str[..|str|] == str;
    FlattenedIsWords(g, f, op, embed, bitsOf, init, str);
  }

  /** Different windows lead to different registers. */
  ghost predicate WindowsDiffer<S(!new), T(!new)>(g: T -> T, op: (T, T) -> T, embed: S -> T, n: nat) {
    forall c: T, w: seq<S>, w': seq<S> ::
      (|w| == |w'| == n && Divided(g, op, c, Words(embed, w)) == Divided(g, op, c, Words(embed, w'))) ==> w == w'
  }

  /** Strings that agree before and after a window of at most n symbols lead to the same value
      only when they agree in the window as well. */
  lemma WindowDecides<S(!new), T(!new)>(combine: (S, T) -> T, g: T -> T, op: (T, T) -> T, embed: S -> T, init: T,
                                        before: seq<S>, w: seq<S>, w': seq<S>, after: seq<S>, pad: S, n: nat)
    requires CombinesAs(combine, g, op, embed) && Injective(g) && Cancels(op) && WindowsDiffer(g, op, embed, n)
    requires |w| == |w'| <= n
    requires var str, str' := before + w + after, before + w' + after;
      Folded(combine, init, |str| - 1, str) == Folded(combine, init, |str'| - 1, str')
    ensures w == w'
  {
    var start := Divided(g, op, init, Words(embed, before));
    FoldedParts(combine, g, op, embed, init, before, w, after);
    FoldedParts(combine, g, op, embed, init, before, w', after);
    var mid, mid' := Divided(g, op, start, Words(embed, w)), Divided(g, op, start, Words(embed, w'));
    DividedInjective(g, op, mid, mid', Words(embed, after));
    var zeros := seq(n - |w|, _ => pad);
    DividedConcat(g, op, start, Words(embed, w), Words(embed, zeros));
    DividedConcat(g, op, start, Words(embed, w'), Words(embed, zeros));
    WordsConcat(embed, w, zeros);
    WordsConcat(embed, w', zeros);
    assert w + zeros == w' + zeros;
    assert w == (w + zeros)[..|w|] && w' == (w' + zeros)[..|w|];
  }

  lemma FoldedParts<S(!new), T(!new)>(combine: (S, T) -> T, g: T -> T, op: (T, T) -> T, embed: S -> T, init: T,
                                      before: seq<S>, w: seq<S>, after: seq<S>)
    requires CombinesAs(combine, g, op, embed)
    ensures var str := before + w + after;
      Folded(combine, init, |str| - 1, str) ==
      Divided(g, op, Divided(g, op, Divided(g, op, init, Words(embed, before)), Words(embed, w)), Words(embed, after))
  {
    var str := before + w + after;
    FoldedIsWords(combine, g, op, embed, init, |str| - 1, str);
    assert str[..|str|] == str;
    WordsConcat(embed, before, w);
    WordsConcat(embed, before + w, after);
    DividedConcat(g, op, init, Words(embed, before), Words(embed, w));
    DividedConcat(g, op, init, Words(embed, before + w), Words(embed, after));
  }

  // ---------------------------------------------------------------- symbols of eight bits

  ghost predicate IsEight<T(!new)>(g: T -> T, f: T -> T) {
    forall x :: g(x) == Iterate(f, x, 8)
  }

  /** A table lookup of the low symbol, combined with the rest of the register. */
  ghost predicate LooksUp<S(!new), T(!new)>(
    combine: (S, T) -> T, op: (T, T) -> T, embed: S -> T, table: S -> T, low: T -> S, rest: T -> T)
  {
    forall b, c :: combine(b, c) == op(rest(op(c, embed(b))), table(low(op(c, embed(b)))))
  }

  ghost predicate SplitsInTwo<S(!new), T(!new)>(op: (T, T) -> T, embed: S -> T, low: T -> S, high: T -> T) {
    forall x :: op(high(x), embed(low(x))) == x
  }

  ghost predicate HoldsEight<S(!new), T(!new)>(table: S -> T, f: T -> T, embed: S -> T) {
    forall i :: table(i) == Iterate(f, embed(i), 8)
  }

  ghost predicate HalvesEven<T(!new)>(f: T -> T, op: (T, T) -> T, half: T -> T, even: T -> bool) {
    forall u, v :: even(u) ==> f(op(u, v)) == op(half(u), f(v))
  }

  ghost predicate HighIsEven<T(!new)>(high: T -> T, rest: T -> T, half: T -> T, even: T -> bool) {
    && (forall x, i :: 0 <= i < 8 ==> even(Iterate(half, high(x), i)))
    && (forall x :: Iterate(half, high(x), 8) == rest(x))
  }

  /** Looking up the low symbol takes the whole symbol through eight steps. */
  lemma LookupIsEight<S(!new), T(!new)>(
    combine: (S, T) -> T, g: T -> T, f: T -> T, op: (T, T) -> T, embed: S -> T,
    table: S -> T, low: T -> S, high: T -> T, rest: T -> T, half: T -> T, even: T -> bool)
    requires IsEight(g, f) && LooksUp(combine, op, embed, table, low, rest) && SplitsInTwo(op, embed, low, high)
    requires HoldsEight(table, f, embed) && HalvesEven(f, op, half, even) && HighIsEven(high, rest, half, even)
    ensures CombinesAs(combine, g, op, embed)
  {
    forall b, c
      ensures combine(b, c) == g(op(c, embed(b)))
    {
      var x := op(c, embed(b));
      HalvedSteps(f, op, half, even, high(x), embed(low(x)), 8);
    }
  }

  /** The word of each bit needs as many steps as the bit's place, and the words make the symbol. */
  ghost predicate BitsMake<S(!new), T(!new)>(
    f: T -> T, op: (T, T) -> T, embed: S -> T, bitsOf: S -> seq<T>, wordsOf: S -> seq<T>)
  {
    && (forall b :: |bitsOf(b)| == |wordsOf(b)| == 8)
    && (forall b, k :: 0 <= k < 8 ==> Iterate(f, wordsOf(b)[k], k) == bitsOf(b)[k])
    && (forall b, c :: Combined(op, c, wordsOf(b)) == op(c, embed(b)))
  }

  lemma BitsAreSymbols<S(!new), T(!new)>(
    g: T -> T, f: T -> T, op: (T, T) -> T, embed: S -> T, bitsOf: S -> seq<T>, wordsOf: S -> seq<T>)
    requires IsEight(g, f) && Linear(f, op) && BitsMake(f, op, embed, bitsOf, wordsOf)
    ensures WholeSymbols(g, f, op, embed, bitsOf)
  {
    forall b, c
      ensures Divided(f, op, c, bitsOf(b)) == g(op(c, embed(b)))
    {
      PiecesTogether(f, op, c, bitsOf(b), wordsOf(b));
    }
  }

  lemma EightKeeps<T(!new)>(g: T -> T, f: T -> T, op: (T, T) -> T)
    requires IsEight(g, f)
    ensures Linear(f, op) ==> Linear(g, op)
    ensures Injective(f) ==> Injective(g)
  {
    if Linear(f, op) {
      forall a, b
        ensures g(op(a, b)) == op(g(a), g(b))
      {
        IterateLinear(f, op, a, b, 8);
      }
    }
    if Injective(f) {
      forall a, b | g(a) == g(b)
        ensures a == b
      {
        IterateInjective(f, a, b, 8);
      }
    }
  }

  lemma CombinedSnoc<T>(op: (T, T) -> T, c: T, words: seq<T>, w: T)
    ensures Combined(op, c, words + [w]) == op(Combined(op, c, words), w)
  {
    assert (words + [w])[..|words|] == words;
  }

  lemma CombinedEight<T>(op: (T, T) -> T, c: T, w0: T, w1: T, w2: T, w3: T, w4: T, w5: T, w6: T, w7: T)
    ensures Combined(op, c, [w0, w1, w2, w3, w4, w5, w6, w7]) ==
            op(op(op(op(op(op(op(op(c, w0), w1), w2), w3), w4), w5), w6), w7)
  {
    CombinedFour(op, c, w0, w1, w2, w3);
    CombinedSnoc(op, c, [w0, w1, w2, w3], w4);
    CombinedSnoc(op, c, [w0, w1, w2, w3] + [w4], w5);
    CombinedSnoc(op, c, [w0, w1, w2, w3] + [w4] + [w5], w6);
    CombinedSnoc(op, c, [w0, w1, w2, w3] + [w4] + [w5] + [w6], w7);
    assert [w0, w1, w2, w3] + [w4] + [w5] + [w6] + [w7] == [w0, w1, w2, w3, w4, w5, w6, w7];
  }

  // ---------------------------------------------------------------- windows of four symbols

  function Four<S, T>(op: (T, T) -> T, up: (S, nat) -> T, c: T, w: seq<S>): T
    requires |w| == 4
  {
    op(op(op(op(c, up(w[0], 0)), up(w[1], 1)), up(w[2], 2)), up(w[3], 3))
  }

  ghost predicate Rises<S(!new), T(!new)>(g: T -> T, embed: S -> T, up: (S, nat) -> T) {
    forall b, j: nat :: j < 4 ==> Iterate(g, up(b, j), j) == embed(b)
  }

  ghost predicate FourDecide<S(!new), T(!new)>(op: (T, T) -> T, up: (S, nat) -> T) {
    forall c: T, w: seq<S>, w': seq<S> ::
      (|w| == |w'| == 4 && Four(op, up, c, w) == Four(op, up, c, w')) ==> w == w'
  }

  lemma CombinedFour<T>(op: (T, T) -> T, c: T, w0: T, w1: T, w2: T, w3: T)
    ensures Combined(op, c, [w0, w1, w2, w3]) == op(op(op(op(c, w0), w1), w2), w3)
  {
    var w := [w0, w1, w2, w3];
    assert w[..3] == [w0, w1, w2] && w[..3][..2] == [w0, w1] && w[..3][..2][..1] == [w0];
    assert Combined(op, c, [w0]) == op(c, w0);
    assert Combined(op, c, [w0, w1]) == op(op(c, w0), w1);
    assert Combined(op, c, [w0, w1, w2]) == op(op(op(c, w0), w1), w2);
  }

  lemma FourTogether<S(!new), T(!new)>(g: T -> T, op: (T, T) -> T, embed: S -> T, up: (S, nat) -> T, c: T, w: seq<S>)
    requires Linear(g, op) && Rises(g, embed, up) && |w| == 4
    ensures Divided(g, op, c, Words(embed, w)) == Iterate(g, Four(op, up, c, w), 4)
  {
    var words := [up(w[0], 0), up(w[1], 1), up(w[2], 2), up(w[3], 3)];
    forall k | 0 <= k < 4
      ensures Iterate(g, words[k], k) == Words(embed, w)[k]
    {
      assert words[k] == up(w[k], k);
    }
    PiecesTogether(g, op, c, Words(embed, w), words);
    CombinedFour(op, c, words[0], words[1], words[2], words[3]);
  }

  lemma FourWindowsDiffer<S(!new), T(!new)>(g: T -> T, op: (T, T) -> T, embed: S -> T, up: (S, nat) -> T)
    requires Linear(g, op) && Injective(g) && Rises(g, embed, up) && FourDecide(op, up)
    ensures WindowsDiffer(g, op, embed, 4)
  {
    forall c: T, w: seq<S>, w': seq<S> |
      |w| == |w'| == 4 && Divided(g, op, c, Words(embed, w)) == Divided(g, op, c, Words(embed, w'))
      ensures w == w'
    {
      FourTogether(g, op, embed, up, c, w);
      FourTogether(g, op, embed, up, c, w');
      IterateInjective(g, Four(op, up, c, w), Four(op, up, c, w'), 4);
    }
  }
}
