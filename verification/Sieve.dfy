/** The sieve workload (examples/eratosthenes_sieve/eratosthenes_sieve.c), for any n instead of 97.
    Slot k - 2 of the array stands for the number k. */
module Sieve {
  /** A C `int`. */
  newtype Int32 = x: int | -0x8000_0000 <= x < 0x8000_0000

  /** The result of an operation is an `int`; for any other result the program is undefined. */
  predicate Fits(x: int) {
    -0x8000_0000 <= x < 0x8000_0000
  }

  ghost predicate Divides(d: int, k: int) {
    exists m: int :: d * m == k
  }

  /** k is the product of two numbers above 1. */
  ghost predicate Composite(k: int) {
    exists a: int, b: int :: a >= 2 && b >= 2 && a * b == k
  }

  /** The one kind of n that the early exit of the loop gets wrong. */
  ghost predicate SquareOfOddPrime(n: int) {
    exists q: int :: q >= 3 && q * q == n && !Composite(q)
  }

  /** k has a divisor below b that is not above its square root. */
  ghost predicate Crossed(k: int, b: int) {
    exists d: int :: 2 <= d < b && d * d <= k && Divides(d, k)
  }

  lemma DividesMultiple(d: int, q: int, k: int)
    requires Divides(d, q) && Divides(q, k)
    ensures Divides(d, k)
  {
    var m: int :| d * m == q;
    var l: int :| q * l == k;
    assert d * (m * l) == k;
  }

  lemma TimesAtMost(c: int, a: int, b: int)
    requires c > 0
    ensures a <= b <==> c * a <= c * b
  {
    if a < b {
      assert c * (b - a) > 0;
    } else if a > b {
      assert c * (a - b) > 0;
    }
  }

  /** A composite number has a divisor up to its square root. */
  lemma CompositeIsCrossed(k: int) returns (d: int)
    requires Composite(k)
    ensures 2 <= d && d * d <= k && Divides(d, k)
  {
    var a: int, b: int :| a >= 2 && b >= 2 && a * b == k;
    d := if a <= b then a else b;
    var m := if a <= b then b else a;
    assert d * m == k;
    TimesAtMost(d, d, m);
  }

  lemma CrossedIsComposite(k: int, b: int)
    requires Crossed(k, b)
    ensures Composite(k)
  {
    var d: int :| 2 <= d < b && d * d <= k && Divides(d, k);
    var m: int :| d * m == k;
    TimesAtMost(d, d, m);
  }

  lemma SquaresOrder(a: int, b: int)
    requires a >= 0 && b >= 0
    ensures a < b <==> a * a < b * b
  {
    if a < b {
      assert (b - a) * (b + a) > 0;
    } else {
      assert (a - b) * (a + b) >= 0;
    }
  }

  /** Beyond the square root of n there is nothing left to cross. */
  lemma CrossedUpTo(k: int, b: int)
    requires k < b * b && b >= 0
    ensures Composite(k) <==> Crossed(k, b)
  {
    if Composite(k) {
      var d := CompositeIsCrossed(k);
      SquaresOrder(d, b);
    }
    if Crossed(k, b) {
      CrossedIsComposite(k, b);
    }
  }

  lemma CrossedInherits(k: int, q: int)
    requires q >= 2 && Crossed(q, q) && q * q <= k && Divides(q, k)
    ensures Crossed(k, q)
  {
    hide Divides;
    var d: int :| 2 <= d < q && d * d <= q && Divides(d, q);
    DividesMultiple(d, q, k);
    SquaresOrder(d, q);
  }

  /** Crossing with a crossed number adds nothing. */
  lemma CrossedSkips(k: int, q: int)
    requires q >= 2 && Crossed(q, q)
    ensures Crossed(k, q + 1) <==> Crossed(k, q)
  {
    hide Crossed, Divides;
    CrossedStep(k, q);
    if q * q <= k && Divides(q, k) {
      CrossedInherits(k, q);
    }
  }

  lemma CrossedStep(k: int, q: int)
    requires q >= 2
    ensures Crossed(k, q + 1) <==> Crossed(k, q) || (q * q <= k && Divides(q, k))
  {
  }

  lemma Quotient(q: int, d: int) returns (t: int, r: int)
    requires d > 0
    ensures q == d * t + r && 0 <= r < d && r == q % d
  {
    t, r := q / d, q % d;
  }

  lemma {:induction false} EuclidLemma(q: int, d: int, m: int)
    requires q >= 2 && !Composite(q) && 1 <= d < q && Divides(q, d * m)
    ensures Divides(q, m)
    decreases d
  {
    var l: int :| q * l == d * m;
    if d == 1 {
      assert q * l == m;
    } else {
      var t, r := Quotient(q, d);
      if r == 0 {
        Cofactor(q, d, t);
      } else {
        Remainder(q, d, m, l, t, r);
        EuclidLemma(q, r, m);
      }
    }
  }

  lemma Cofactor(q: int, d: int, t: int)
    requires 2 <= d < q && q == d * t
    ensures Composite(q)
  {
    TimesAtMost(d, t, 1);
  }

  lemma Remainder(q: int, d: int, m: int, l: int, t: int, r: int)
    requires q * l == d * m && q == d * t + r
    ensures Divides(q, r * m)
  {
    calc {
      r * m;
      (q - d * t) * m;
      q * m - (d * m) * t;
      q * m - (q * l) * t;
      q * (m - l * t);
    }
  }

  /** The square of a prime is crossed by no smaller number. */
  lemma PrimeSquare(q: int, b: int)
    requires 2 <= b <= q && !Composite(q)
    ensures !Crossed(q * q, b)
  {
    if Crossed(q * q, b) {
      var d: int :| 2 <= d < b && d * d <= q * q && Divides(d, q * q);
      var m: int :| d * m == q * q;
      EuclidLemma(q, d, m);
      var l: int :| q * l == m;
      Cancel(q, d, l);
      Cofactor(q, d, l);
    }
  }

  lemma Cancel(q: int, d: int, l: int)
    requires q > 0 && d * (q * l) == q * q
    ensures q == d * l
  {
    assert q * (d * l) == q * q;
    TimesAtMost(q, d * l, q);
    TimesAtMost(q, q, d * l);
  }

  // ----- the range of int -----

  /** The last prime whose square is an `int`. */
  const LIMIT := 46337

  lemma NoDivisor(e: int)
    requires 2 <= e < 216
    ensures LIMIT % e != 0
  {
  }

  lemma DividesModulo(e: int, k: int)
    requires e > 0 && Divides(e, k)
    ensures k % e == 0
  {
    var m: int :| e * m == k;
    var t, r := Quotient(k, e);
    Difference(e, m, t);
    TimesAtMost(e, 1, m - t);
    TimesAtMost(e, m - t, -1);
  }

  lemma Difference(c: int, a: int, b: int)
    ensures c * (a - b) == c * a - c * b
  {
  }

  lemma LimitIsPrime()
    ensures !Composite(LIMIT)
  {
    if Composite(LIMIT) {
      var d := CompositeIsCrossed(LIMIT);
      SquaresOrder(216, d);
      DividesModulo(d, LIMIT);
      NoDivisor(d);
    }
  }

  /** The square of every later candidate overflows. */
  lemma LaterSquares(q: int)
    requires q > LIMIT && !Composite(q)
    ensures q * q >= 0x8000_0000
  {
    assert 2 * 23169 == 46338 && 149 * 311 == 46339 && 2 * 23170 == 46340;
    SquaresOrder(46340, q);
  }

  // ----- the program -----

  /** The slots for 2 to n when the multiples of all numbers below b have been crossed out. */
  ghost predicate Struck(s: seq<Int32>, n: int, b: int) {
    |s| >= n - 1 && forall k :: 2 <= k <= n ==> s[k - 2] as int == if Crossed(k, b) then -1 else k
  }

  /** The same, with the multiples of p from p * p to below tmp crossed out as well. */
  ghost predicate Striking(s: seq<Int32>, n: int, b: int, p: int, tmp: int) {
    |s| >= n - 1 &&
    forall k :: 2 <= k <= n ==>
      s[k - 2] as int == if Crossed(k, b) || (p * p <= k < tmp && Divides(p, k)) then -1 else k
  }

  function Max(a: int, b: int): int {
    if a < b then b else a
  }

  lemma NoMultipleBetween(p: int, tmp: int, k: int)
    requires p > 0 && Divides(p, tmp) && Divides(p, k) && tmp <= k < tmp + p
    ensures k == tmp
  {
    var t: int :| p * t == tmp;
    var m: int :| p * m == k;
    TimesAtMost(p, t + 1, m);
    TimesAtMost(p, t, m);
  }

  lemma StrikeOne(s: seq<Int32>, n: int, b: int, p: int, tmp: int)
    requires Striking(s, n, b, p, tmp) && p >= 2 && p * p <= tmp <= n && Divides(p, tmp)
    ensures tmp >= 2 && Striking(s[tmp - 2 := -1], n, b, p, tmp + p)
  {
    SquaresOrder(1, p);
    hide Crossed;
    forall k | 2 <= k <= n
      ensures s[tmp - 2 := -1][k - 2] as int
           == if Crossed(k, b) || (p * p <= k < tmp + p && Divides(p, k)) then -1 else k
    {
      if Divides(p, k) && tmp <= k < tmp + p {
        NoMultipleBetween(p, tmp, k);
      }
    }
  }

  lemma CrossedMore(k: int, p: int)
    requires p >= 2
    ensures Crossed(k, Max(p, 3)) || (p * p <= k && Divides(p, k)) <==> Crossed(k, p + 1)
  {
    CrossedStep(k, p);
  }

  lemma StrikeAll(s: seq<Int32>, n: int, p: int, tmp: int)
    requires Striking(s, n, Max(p, 3), p, tmp) && p >= 2 && tmp > n
    ensures Struck(s, n, p + 1)
  {
    hide Crossed, Max, Divides;
    var b := p + 1;
    forall k | 2 <= k <= n
      ensures s[k - 2] as int == if Crossed(k, b) then -1 else k
    {
      CrossedMore(k, p);
    }
  }

  lemma StruckSkips(s: seq<Int32>, n: int, q: int)
    requires Struck(s, n, q) && 2 <= q <= n && s[q - 2] == -1
    ensures Struck(s, n, q + 1) && Composite(q)
  {
    hide Crossed, Composite;
    CrossedIsComposite(q, q);
    var b := q + 1;
    forall k | 2 <= k <= n
      ensures s[k - 2] as int == if Crossed(k, b) then -1 else k
    {
      CrossedSkips(k, q);
    }
  }

  lemma MultipleNext(p: int, tmp: int)
    requires Divides(p, tmp)
    ensures Divides(p, tmp + p)
  {
    var t: int :| p * t == tmp;
    assert p * (t + 1) == tmp + p;
  }

  lemma SquareFits(p: int)
    requires p >= 0
    ensures p <= LIMIT ==> Fits(p * p)
  {
    SquaresOrder(LIMIT, p);
  }

  /** What the program computes: -1 exactly in the slots of the composite numbers, and the number itself
      in the others; except that the square of an odd prime stays in the last slot. */
  ghost predicate Sieved(s: seq<Int32>, n: int) {
    |s| >= n - 1 &&
    forall k :: 2 <= k <= n ==> s[k - 2] as int == if Composite(k) && !(k == n && SquareOfOddPrime(n)) then -1 else k
  }

  /** No prime lies strictly between p and q. */
  ghost predicate NoPrimeBetween(p: int, q: int) {
    forall r :: p < r < q ==> Composite(r)
  }

  /** `if (tmp > n) break`, which only happens in the first round. */
  lemma FirstExit(s: seq<Int32>, n: int)
    requires 2 <= n < 4 && Struck(s, n, 3)
    ensures Sieved(s, n)
  {
    hide Crossed, Composite;
    forall k | 2 <= k <= n
      ensures Composite(k) <==> Crossed(k, 3)
    {
      CrossedUpTo(k, 3);
    }
    assert !SquareOfOddPrime(n) by {
      if SquareOfOddPrime(n) {
        var q: int :| q >= 3 && q * q == n && !Composite(q);
        SquaresOrder(2, q);
      }
    }
  }

  lemma NotASquare(n: int, p: int, q: int)
    requires 2 <= p < q && p * p <= n < q * q && (p == 2 || p * p < n) && NoPrimeBetween(p, q)
    ensures !SquareOfOddPrime(n)
  {
    if SquareOfOddPrime(n) {
      var r: int :| r >= 3 && r * r == n && !Composite(r);
      SquaresOrder(r, q);
      SquaresOrder(r, p);
    }
  }

  lemma LastSlot(s: seq<Int32>, n: int, q: int)
    requires Struck(s, n, q) && n == q * q && 3 <= q < n && s[q - 2] != -1
    ensures SquareOfOddPrime(n) && s[n - 2] as int == n
  {
    hide Crossed, Composite;
    CrossedUpTo(q, q);
    PrimeSquare(q, q);
  }

  /** `if (prime * prime >= n) break`. */
  lemma LastExit(s: seq<Int32>, n: int, p: int, q: int)
    requires Struck(s, n, q) && 2 <= p < q && p * p <= n <= q * q && (p == 2 || p * p < n) && NoPrimeBetween(p, q)
    requires q > n || s[q - 2] != -1
    ensures Sieved(s, n)
  {
    hide Crossed, Composite;
    forall k | 2 <= k <= n
      ensures s[k - 2] as int == if Composite(k) && !(k == n && SquareOfOddPrime(n)) then -1 else k
    {
      if k < q * q {
        CrossedUpTo(k, q);
        if n < q * q {
          NotASquare(n, p, q);
        }
      } else {
        SquaresOrder(1, q);
        LastSlot(s, n, q);
      }
    }
  }

  /** The inner loop: cross out the multiples of a number from its square on. False if an `int` overflows. */
  method Strike(numbers: array<Int32>, n: Int32, prime: Int32, square: Int32) returns (fits: bool)
    requires 2 <= n && numbers.Length >= n as int - 1
    requires 2 <= prime && square as int == prime as int * prime as int
    requires Struck(numbers[..], n as int, Max(prime as int, 3))
    modifies numbers
    ensures fits ==> Struck(numbers[..], n as int, prime as int + 1)
    ensures n as int <= LIMIT * LIMIT && prime as int <= LIMIT ==> fits
  {
    hide Crossed, Max, Divides;
    ghost var p := prime as int;
    SquaresOrder(1, p);
    DividesSquare(p);
    var tmp := square;
    StrikeNone(numbers[..], n as int, Max(p, 3), p);
    while tmp <= n
      invariant p * p <= tmp as int && Divides(p, tmp as int)
      invariant Striking(numbers[..], n as int, Max(p, 3), p, tmp as int)
      decreases n as int - tmp as int
    {
      StrikeOne(numbers[..], n as int, Max(p, 3), p, tmp as int);
      MultipleNext(p, tmp as int);
      numbers[tmp - 2] := -1;
      if !Fits(tmp as int + prime as int) {
        return false;
      }
      tmp := tmp + prime;
    }
    StrikeAll(numbers[..], n as int, p, tmp as int);
    fits := true;
  }

  lemma DividesSquare(p: int)
    ensures Divides(p, p * p)
  {
  }

  lemma StrikeNone(s: seq<Int32>, n: int, b: int, p: int)
    requires Struck(s, n, b)
    ensures Striking(s, n, b, p, p * p)
  {
  }

  /** The `for` loop: go on to the next number that is not crossed out. False if an `int` overflows. */
  method NextPrime(numbers: array<Int32>, n: Int32, prime: Int32) returns (fits: bool, next: Int32)
    requires 2 <= n && numbers.Length >= n as int - 1
    requires 2 <= prime <= n && Struck(numbers[..], n as int, prime as int + 1)
    ensures fits ==>
      prime < next && NoPrimeBetween(prime as int, next as int) && Struck(numbers[..], n as int, next as int) &&
      (next > n || numbers[next - 2] != -1)
    ensures prime as int < LIMIT ==> fits && next as int <= LIMIT
  {
    hide Crossed, Composite, Struck;
    next := prime;
    if !Fits(prime as int + 1) {
      return false, next;
    }
    next := prime + 1;
    while next <= n && numbers[next - 2] == -1
      invariant prime < next && NoPrimeBetween(prime as int, next as int)
      invariant prime as int < LIMIT ==> next as int <= LIMIT
      invariant Struck(numbers[..], n as int, next as int)
      decreases n as int - next as int
    {
      StruckSkips(numbers[..], n as int, next as int);
      LimitIsPrime();
      if !Fits(next as int + 1) {
        return false, next;
      }
      next := next + 1;
    }
    fits := true;
  }

  lemma NotStruckIsPrime(s: seq<Int32>, n: int, q: int)
    requires Struck(s, n, q) && 2 <= q <= n && s[q - 2] != -1
    ensures !Composite(q)
  {
    hide Crossed, Composite;
    SquaresOrder(1, q);
    assert q < q * q by {
      TimesAtMost(q, q, 1);
    }
    CrossedUpTo(q, q);
  }

  /** When the loop ends without overflow, n is within the bound. */
  lemma EndsWithin(s: seq<Int32>, n: int, q: int)
    requires 2 <= n && Struck(s, n, q) && q >= 2 && n <= q * q && Fits(q * q) && (q > n || s[q - 2] != -1)
    ensures n <= LIMIT * LIMIT
  {
    hide Struck;
    if n > LIMIT * LIMIT {
      SquaresOrder(LIMIT, q);
      if q <= n {
        NotStruckIsPrime(s, n, q);
        LaterSquares(q);
      } else {
        SquaresOrder(46341, q);
      }
    }
  }

  /** The sieve of n overflows `int` if and only if n is above LIMIT * LIMIT. */
  method SieveOfEratosthenes(numbers: array<Int32>, n: Int32) returns (fits: bool)
    requires 2 <= n && numbers.Length >= n as int - 1 && Struck(numbers[..], n as int, 3)
    modifies numbers
    ensures fits <==> n as int <= LIMIT * LIMIT
    ensures fits ==> Sieved(numbers[..], n as int)
  {
    hide Crossed, Composite, Struck, Sieved;
    var prime: Int32 := 2;
    while true
      invariant 2 <= prime <= n && Struck(numbers[..], n as int, Max(prime as int, 3))
      invariant prime == 2 || prime as int * prime as int < n as int
      decreases n as int - prime as int
    {
      ghost var p := prime as int;
      SquaresOrder(p, LIMIT);
      var tmp := prime * prime;
      if tmp > n {
        FirstExit(numbers[..], n as int);
        return true;
      }
      fits := Strike(numbers, n, prime, tmp);
      if !fits {
        return;
      }
      fits, prime := NextPrime(numbers, n, prime);
      if !fits {
        return;
      }
      SquareFits(prime as int);
      if !Fits(prime as int * prime as int) {
        return false;
      }
      if prime * prime >= n {
        EndsWithin(numbers[..], n as int, prime as int);
        LastExit(numbers[..], n as int, p, prime as int);
        return true;
      }
      TimesAtMost(prime as int, 1, prime as int);
    }
  }

  /** Initially the even numbers from 4 on are crossed out. */
  lemma CrossedByTwo(k: int)
    requires k >= 2
    ensures Crossed(k, 3) <==> k != 2 && k % 2 == 0
  {
    if Divides(2, k) {
      DividesModulo(2, k);
    }
    if k % 2 == 0 {
      assert 2 * (k / 2) == k;
    }
  }

  lemma LastOf(s: seq<Int32>, n: int)
    requires n >= 2 && Sieved(s, n)
    ensures s[n - 2] as int == if Composite(n) && !SquareOfOddPrime(n) then -1 else n
  {
    var k := n;
    assert s[k - 2] as int == if Composite(k) && !(k == n && SquareOfOddPrime(n)) then -1 else k;
  }

  /** The program for any n. For n up to LIMIT * LIMIT it returns -1 if n is composite, except for the squares
      of odd primes, and n otherwise; for every larger n an `int` overflows. */
  method SieveNumbers(n: Int32) returns (fits: bool, last: Int32)
    requires 2 <= n
    ensures fits <==> n as int <= LIMIT * LIMIT
    ensures fits ==> last as int == if Composite(n as int) && !SquareOfOddPrime(n as int) then -1 else n as int
  {
    hide Crossed, Composite, SquareOfOddPrime;
    last := 0;
    var numbers := new Int32[n](_ => 0);
    numbers[0] := 2;
    CrossedByTwo(2);
    var i: Int32 := 3;
    while i <= n
      invariant 3 <= i && i as int <= n as int + 1
      invariant Struck(numbers[..], i as int - 1, 3)
    {
      CrossedByTwo(i as int);
      if i % 2 == 1 {
        numbers[i - 2] := i;
      } else {
        numbers[i - 2] := -1;
      }
      if !Fits(i as int + 1) {
        return false, 0;
      }
      i := i + 1;
    }
    fits := SieveOfEratosthenes(numbers, n);
    last := numbers[n - 2];
    if fits {
      LastOf(numbers[..], n as int);
    }
  }

  /** The sieve is right for n if and only if n is not the square of an odd prime. */
  lemma RightExactlyWhen(s: seq<Int32>, n: int)
    requires n >= 2 && Sieved(s, n)
    ensures (forall k :: 2 <= k <= n ==> (s[k - 2] == -1 <==> Composite(k))) <==> !SquareOfOddPrime(n)
  {
    if SquareOfOddPrime(n) {
      var q: int :| q >= 3 && q * q == n && !Composite(q);
      assert Composite(n);
      assert s[n - 2] as int == n;
    }
  }

  lemma SmallPrime()
    ensures !Composite(3)
  {
    if Composite(3) {
      var d := CompositeIsCrossed(3);
      SquaresOrder(2, d);
    }
  }

  /** The shipped program is right: 97 is prime. The first n that goes wrong is 9. */
  lemma NineAndNinetySeven()
    ensures SquareOfOddPrime(9) && !Composite(97)
  {
    SmallPrime();
    assert 3 * 3 == 9;
    if Composite(97) {
      hide Composite;
      var d := CompositeIsCrossed(97);
      SquaresOrder(10, d);
      DividesModulo(d, 97);
      NoDivisorOfNinetySeven(d);
    }
  }

  lemma NoDivisorOfNinetySeven(d: int)
    requires 2 <= d < 10
    ensures 97 % d != 0
  {
  }
}
