/** Boundary-aware placement (kernel-lib/src/allocator.rs:32-54). */
module Placement {
  import opened Basics
  import opened Arithmetic

  function Pow2(k: nat): (r: nat)
    ensures r >= 1
  {
    if k == 0 then 1 else 2 * Pow2(k - 1)
  }

  /** The machine word of the target is 64 bits wide. */
  const WORD_SIZE: nat := 0x1_0000_0000_0000_0000

  type Usize = n: nat | n < WORD_SIZE

  /** Bitwise and, bit by bit. */
  function And(a: nat, b: nat): (r: nat)
    ensures r <= a
    decreases a
  {
    if a == 0 then 0 else (if a % 2 == 1 && b % 2 == 1 then 1 else 0) + 2 * And(a / 2, b / 2)
  }

  /** Bitwise complement of a machine word. */
  function Not(a: Usize): Usize {
    WORD_SIZE - 1 - a
  }

  function WrappingAdd(a: Usize, b: Usize): Usize {
    (a + b) % WORD_SIZE
  }

  function WrappingSub(a: Usize, b: Usize): Usize {
    (a - b) % WORD_SIZE
  }

  /** (value + alignment - 1) & !(alignment - 1), wrapping as a release build does. */
  function Ceil(value: Usize, alignment: Usize): Usize {
    And(WrappingSub(WrappingAdd(value, alignment), 1), Not(WrappingSub(alignment, 1)))
  }

  lemma {:induction false} Pow2Splits(j: nat, k: nat)
    ensures Pow2(j + k) == Pow2(j) * Pow2(k)
  {
    if j > 0 {
      Pow2Splits(j - 1, k);
      assert 2 * (Pow2(j - 1) * Pow2(k)) == (2 * Pow2(j - 1)) * Pow2(k);
    }
  }

  lemma HalveModulo(a: nat, p: nat)
    requires p >= 1
    ensures a % (2 * p) == 2 * (a / 2 % p) + a % 2
  {
    var q, r := a / 2 / p, a / 2 % p;
    assert a / 2 == q * p + r;
    assert q * (2 * p) == 2 * (q * p);
    DivModUnique(a, 2 * p, q, 2 * r + a % 2);
  }

  lemma AndEven(a: nat, c: nat)
    ensures And(a, 2 * c) == 2 * And(a / 2, c)
  {
    assert 2 * c / 2 == c && 2 * c % 2 == 0;
  }

  lemma AndOdd(a: nat, c: nat)
    ensures And(a, 2 * c + 1) == a % 2 + 2 * And(a / 2, c)
  {
    assert (2 * c + 1) / 2 == c && (2 * c + 1) % 2 == 1;
  }

  lemma AndOneBitMore(a: nat, c: nat, low: nat)
    requires low >= 1 && And(a / 2, c) == a / 2 - a / 2 % low
    ensures And(a, 2 * c) == a - a % (2 * low)
  {
    AndEven(a, c);
    HalveModulo(a, low);
  }

  /** Anding with the ones of positions k..w clears the low k bits. */
  lemma {:induction false} AndHighOnes(a: nat, k: nat, w: nat)
    requires k <= w && a < Pow2(w) && Pow2(k) <= Pow2(w)
    ensures And(a, Pow2(w) - Pow2(k)) == a - a % Pow2(k)
    decreases w
  {
    if k == 0 {
      AndAllOnes(a, w);
    } else {
      AndHighOnes(a / 2, k - 1, w - 1);
      assert Pow2(w) - Pow2(k) == 2 * (Pow2(w - 1) - Pow2(k - 1));
      AndOneBitMore(a, Pow2(w - 1) - Pow2(k - 1), Pow2(k - 1));
    }
  }

  lemma {:induction false} AndAllOnes(a: nat, w: nat)
    requires a < Pow2(w)
    ensures And(a, Pow2(w) - 1) == a
    decreases w
  {
    if w > 0 {
      var c := Pow2(w - 1) - 1;
      assert Pow2(w) - 1 == 2 * c + 1;
      AndOdd(a, c);
      AndAllOnes(a / 2, w - 1);
    }
  }

  lemma {:induction false} Pow2Monotone(k: nat, w: nat)
    requires k <= w
    ensures Pow2(k) <= Pow2(w)
    decreases w
  {
    if k < w {
      Pow2Monotone(k, w - 1);
    }
  }

  lemma WordSizeIsPow2()
    ensures Pow2(64) == WORD_SIZE
  {
    assert Pow2(8) == 0x100;
    Pow2Splits(8, 8);
    assert Pow2(16) == 0x1_0000;
    Pow2Splits(16, 16);
    assert Pow2(32) == 0x1_0000_0000;
    Pow2Splits(32, 32);
  }

  /** Rounding down to a multiple of `a`. */
  lemma RoundDown(n: nat, a: nat)
    requires a >= 1
    ensures 0 <= n - n % a <= n && (n - n % a) % a == 0
  {
    var q := n / a;
    assert n - n % a == q * a;
    DivModUnique(n - n % a, a, q, 0);
  }

  lemma WrappedSum(value: Usize, a: Usize)
    requires a >= 1
    ensures WrappingSub(WrappingAdd(value, a), 1) ==
      if value + a - 1 < WORD_SIZE then value + a - 1 else value + a - 1 - WORD_SIZE
  {}

  /** The complement of `alignment - 1` has exactly the bits from the alignment's own upwards. */
  lemma MaskOf(a: Usize)
    requires a >= 1
    ensures Not(WrappingSub(a, 1)) == WORD_SIZE - a
  {}

  lemma CeilMasks(value: Usize, k: nat, w: nat, sum: Usize)
    requires k < w && Pow2(w) == WORD_SIZE && Pow2(k) < WORD_SIZE
    requires sum == WrappingSub(WrappingAdd(value, Pow2(k)), 1)
    ensures Ceil(value, Pow2(k)) == sum - sum % Pow2(k)
  {
    MaskOf(Pow2(k));
    calc {
      Ceil(value, Pow2(k));
      And(sum, Not(WrappingSub(Pow2(k), 1)));
      And(sum, Pow2(w) - Pow2(k));
      { AndHighOnes(sum, k, w); }
      sum - sum % Pow2(k);
    }
  }

  lemma CeilIn(value: Usize, k: nat, w: nat)
    requires k < w && Pow2(w) == WORD_SIZE
    ensures Pow2(k) < WORD_SIZE
    ensures var a, r := Pow2(k), Ceil(value, Pow2(k));
      if value + a - 1 < WORD_SIZE then r % a == 0 && value <= r < value + a else r == 0
  {
    Pow2Monotone(k + 1, w);
    CeilMasks(value, k, w, WrappingSub(WrappingAdd(value, Pow2(k)), 1));
    RoundUp(value, Pow2(k));
  }

  /** The mask rounds up to a multiple of the alignment while the sum fits in a word, and returns 0 when it
      wraps. */
  lemma CeilRoundsUp(value: Usize, k: nat)
    requires k < 64
    ensures Pow2(k) < WORD_SIZE
    ensures var a, r := Pow2(k), Ceil(value, Pow2(k));
      if value + a - 1 < WORD_SIZE then r % a == 0 && value <= r < value + a else r == 0
  {
    WordSizeIsPow2();
    CeilIn(value, k, 64);
  }

  lemma RoundUp(value: Usize, a: Usize)
    requires a >= 1
    ensures var sum := WrappingSub(WrappingAdd(value, a), 1); var r := sum - sum % a;
      if value + a - 1 < WORD_SIZE then r % a == 0 && value <= r < value + a else r == 0
  {
    WrappedSum(value, a);
    var sum := WrappingSub(WrappingAdd(value, a), 1);
    if value + a - 1 < WORD_SIZE {
      RoundDown(sum, a);
    } else {
      DivModUnique(sum, a, 0, sum);
    }
  }

  // Placement

  datatype Range = Range(start: nat, end: nat)

  /** A layout has a power-of-two alignment; the boundary is zero or a power of two no smaller than the size. */
  datatype Layout = Layout(size: Usize, alignLog: nat)
  datatype Boundary = Unbounded | Every(log: nat)

  predicate ValidRequest(l: Layout, b: Boundary) {
    l.alignLog < 64 && (b.Every? ==> b.log < 64 && l.size <= Pow2(b.log))
  }

  function AlignAndBoundaryTo(from: Usize, l: Layout, b: Boundary): Option<Range>
    requires ValidRequest(l, b)
  {
    CeilRoundsUp(from, l.alignLog);
    var aligned := Ceil(from, Pow2(l.alignLog));
    if b.Unbounded? then Checked(aligned, l.size)
    else
      CeilRoundsUp(aligned, b.log);
      var next := Ceil(aligned, Pow2(b.log));
      if aligned + l.size >= WORD_SIZE then None
      else Checked(if next < aligned + l.size then next else aligned, l.size)
  }

  function Checked(start: Usize, size: Usize): Option<Range> {
    if start + size >= WORD_SIZE then None else Some(Range(start, start + size))
  }

  /** The two additions inside `ceil` stay within a word. */
  predicate NoWrap(from: Usize, l: Layout, b: Boundary)
    requires ValidRequest(l, b)
  {
    CeilRoundsUp(from, l.alignLog);
    && from + Pow2(l.alignLog) - 1 < WORD_SIZE
    && (b.Every? ==> Ceil(from, Pow2(l.alignLog)) + Pow2(b.log) - 1 < WORD_SIZE)
  }

  predicate MultipleOf(m: int, a: nat)
    requires a >= 1
  {
    m % a == 0
  }

  /** Some multiple of the boundary lies strictly inside the block. */
  ghost predicate Crosses(start: nat, size: nat, boundary: nat)
    requires boundary >= 1
  {
    exists m :: MultipleOf(m, boundary) && start < m < start + size
  }

  ghost predicate Suitable(start: nat, l: Layout, b: Boundary) {
    && MultipleOf(start, Pow2(l.alignLog))
    && (b.Every? ==> !Crosses(start, l.size, Pow2(b.log)))
  }

  lemma MultiplesApart(m: int, r: int, a: nat)
    requires a >= 1 && MultipleOf(m, a) && MultipleOf(r, a) && m < r
    ensures m + a <= r
  {
    if r - m < a {
      DivModUnique(r, a, m / a, r - m);
    }
  }

  lemma PowersDivide(m: int, j: nat, k: nat)
    requires j <= k && MultipleOf(m, Pow2(k))
    ensures MultipleOf(m, Pow2(j))
  {
    Pow2Splits(k - j, j);
    MultiplesNest(m, Pow2(k - j), Pow2(j));
  }

  lemma MultiplesNest(m: int, c: nat, a: nat)
    requires a >= 1 && c >= 1 && c * a >= 1 && MultipleOf(m, c * a)
    ensures MultipleOf(m, a)
  {
    var q := m / (c * a);
    assert m == q * (c * a);
    assert q * (c * a) == (q * c) * a;
    DivModUnique(m, a, q * c, 0);
  }

  /** A block no longer than the boundary that starts on it does not cross it. */
  lemma StartsOnBoundary(start: nat, size: nat, boundary: nat)
    requires boundary >= 1 && MultipleOf(start, boundary) && size <= boundary
    ensures !Crosses(start, size, boundary)
  {
    forall m | MultipleOf(m, boundary) && start < m ensures m >= start + size {
      MultiplesApart(start, m, boundary);
    }
  }

  /** A block that ends at or before the next multiple does not cross one. */
  lemma EndsBeforeBoundary(start: nat, size: nat, next: nat, boundary: nat)
    requires boundary >= 1 && MultipleOf(next, boundary) && start <= next < start + boundary && start + size <= next
    ensures !Crosses(start, size, boundary)
  {
    forall m | MultipleOf(m, boundary) && start < m ensures m >= start + size {
      if m < next {
        MultiplesApart(m, next, boundary);
      }
    }
  }

  /** The start the code computes before the overflow check. */
  function Start(from: Usize, l: Layout, b: Boundary): nat
    requires ValidRequest(l, b)
  {
    CeilRoundsUp(from, l.alignLog);
    var aligned := Ceil(from, Pow2(l.alignLog));
    if b.Unbounded? then aligned
    else
      CeilRoundsUp(aligned, b.log);
      var next := Ceil(aligned, Pow2(b.log));
      if next < aligned + l.size then next else aligned
  }

  lemma StartIsSuitable(from: Usize, l: Layout, b: Boundary)
    requires ValidRequest(l, b) && NoWrap(from, l, b)
    ensures from <= Start(from, l, b) && Suitable(Start(from, l, b), l, b)
  {
    CeilRoundsUp(from, l.alignLog);
    if b.Every? {
      var aligned, a, w := Ceil(from, Pow2(l.alignLog)), Pow2(l.alignLog), Pow2(b.log);
      CeilRoundsUp(aligned, b.log);
      var next := Ceil(aligned, w);
      if next >= aligned + l.size {
        EndsBeforeBoundary(aligned, l.size, next, w);
      } else {
        StartsOnBoundary(next, l.size, w);
        if b.log <= l.alignLog {
          PowersDivide(aligned, b.log, l.alignLog);
          if aligned < next {
            MultiplesApart(aligned, next, w);
          }
        } else {
          PowersDivide(next, l.alignLog, b.log);
        }
      }
    }
  }

  lemma StartIsLeast(from: Usize, l: Layout, b: Boundary, other: nat)
    requires ValidRequest(l, b) && NoWrap(from, l, b) && from <= other && Suitable(other, l, b)
    ensures Start(from, l, b) <= other
  {
    CeilRoundsUp(from, l.alignLog);
    var aligned, a := Ceil(from, Pow2(l.alignLog)), Pow2(l.alignLog);
    if other < aligned {
      MultiplesApart(other, aligned, a);
    }
    if b.Every? {
      CeilRoundsUp(aligned, b.log);
      var next := Ceil(aligned, Pow2(b.log));
      assert MultipleOf(next, Pow2(b.log));
      assert next < aligned + l.size ==> !(other < next < other + l.size);
    }
  }

  /** The placement is the least start at or after `from` that is aligned and crosses no boundary; it is
      refused exactly when even that block would run past the address space. */
  ghost predicate LeastPlacement(from: Usize, l: Layout, b: Boundary, placed: Option<Range>) {
    match placed
    case Some(r) =>
      && from <= r.start && r.end == r.start + l.size < WORD_SIZE && Suitable(r.start, l, b)
      && (forall s: nat :: from <= s && Suitable(s, l, b) ==> r.start <= s)
    case None =>
      forall s: nat :: from <= s && Suitable(s, l, b) ==> s + l.size >= WORD_SIZE
  }

  lemma PlacementWithoutWrap(from: Usize, l: Layout, b: Boundary)
    requires ValidRequest(l, b) && NoWrap(from, l, b)
    ensures LeastPlacement(from, l, b, AlignAndBoundaryTo(from, l, b))
  {
    StartIsSuitable(from, l, b);
    forall s: nat | from <= s && Suitable(s, l, b) ensures Start(from, l, b) <= s {
      StartIsLeast(from, l, b, s);
    }
    if b.Every? {
      CeilRoundsUp(from, l.alignLog);
      CeilRoundsUp(Ceil(from, Pow2(l.alignLog)), b.log);
    }
  }

  /** What a caller has to know before the call: rounding `from` up does not wrap, and neither does rounding the
      result up to the boundary, unless the block runs past the address space anyway. */
  predicate Placeable(from: Usize, l: Layout, b: Boundary)
    requires ValidRequest(l, b)
  {
    CeilRoundsUp(from, l.alignLog);
    && from + Pow2(l.alignLog) - 1 < WORD_SIZE
    && (b.Every? ==>
         var aligned := Ceil(from, Pow2(l.alignLog));
         aligned + Pow2(b.log) - 1 < WORD_SIZE || aligned + l.size >= WORD_SIZE)
  }

  /** The boundary addition wraps, but the block would not fit even where it is: the refusal is right. */
  lemma RefusedPlacement(from: Usize, l: Layout, b: Boundary)
    requires ValidRequest(l, b) && Placeable(from, l, b) && !NoWrap(from, l, b)
    ensures AlignAndBoundaryTo(from, l, b) == None && LeastPlacement(from, l, b, None)
  {
    CeilRoundsUp(from, l.alignLog);
    var aligned := Ceil(from, Pow2(l.alignLog));
    forall s: nat | from <= s && Suitable(s, l, b) ensures aligned <= s {
      if s < aligned {
        MultiplesApart(s, aligned, Pow2(l.alignLog));
      }
    }
  }

  lemma WrappedAlignment(from: Usize, l: Layout, b: Boundary)
    requires ValidRequest(l, b) && from + Pow2(l.alignLog) - 1 >= WORD_SIZE
    ensures AlignAndBoundaryTo(from, l, b) == Some(Range(0, l.size)) && from > 0
  {
    CeilRoundsUp(from, l.alignLog);
    if b.Every? {
      var aligned := Ceil(from, Pow2(l.alignLog));
      CeilRoundsUp(aligned, b.log);
      var next := Ceil(aligned, Pow2(b.log));
      DivModUnique(next, Pow2(b.log), 0, next);
    }
  }

  lemma WrappedBoundary(from: Usize, l: Layout, b: Boundary)
    requires ValidRequest(l, b) && from + Pow2(l.alignLog) - 1 < WORD_SIZE && !Placeable(from, l, b)
    ensures AlignAndBoundaryTo(from, l, b) == Some(Range(0, l.size)) && from > 0
  {
    CeilRoundsUp(from, l.alignLog);
    var aligned := Ceil(from, Pow2(l.alignLog));
    CeilRoundsUp(aligned, b.log);
    assert aligned > 0;
    if from == 0 {
      DivModUnique(aligned, Pow2(l.alignLog), 0, aligned);
    }
  }

  /** Everything else is placed at address 0, below `from`. */
  lemma WrappedPlacement(from: Usize, l: Layout, b: Boundary)
    requires ValidRequest(l, b) && !Placeable(from, l, b)
    ensures AlignAndBoundaryTo(from, l, b) == Some(Range(0, l.size)) && from > 0
  {
    if from + Pow2(l.alignLog) - 1 >= WORD_SIZE {
      WrappedAlignment(from, l, b);
    } else {
      WrappedBoundary(from, l, b);
    }
  }

  /** The code places every valid request correctly if and only if it is placeable. */
  lemma PlacementIsLeastExactly(from: Usize, l: Layout, b: Boundary)
    requires ValidRequest(l, b)
    ensures LeastPlacement(from, l, b, AlignAndBoundaryTo(from, l, b)) <==> Placeable(from, l, b)
  {
    if NoWrap(from, l, b) {
      PlacementWithoutWrap(from, l, b);
    } else if Placeable(from, l, b) {
      RefusedPlacement(from, l, b);
    } else {
      WrappedPlacement(from, l, b);
    }
  }

  /** What a caller gets: the least placement, or for a request that is not placeable the block at address 0. */
  lemma PlacementOutcome(from: Usize, l: Layout, b: Boundary)
    requires ValidRequest(l, b)
    ensures if Placeable(from, l, b) then LeastPlacement(from, l, b, AlignAndBoundaryTo(from, l, b))
      else AlignAndBoundaryTo(from, l, b) == Some(Range(0, l.size)) && from > 0
  {
    PlacementIsLeastExactly(from, l, b);
    if !Placeable(from, l, b) {
      WrappedPlacement(from, l, b);
    }
  }
}
