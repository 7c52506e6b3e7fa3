/**
 What the language means, in terms of bytes and numbers alone: what storing and reading an object
 does to memory, what each operator computes for operands of given types, and how loops unfold.
 The compiler is proved against the meaning; these laws pin the meaning down.
 */
module RiefLaws {
  import opened Basics
  import opened RiefLang
  import opened RiefProgram

  function Power(n: nat): (r: nat)
    ensures r > 0
  {
    if n == 0 then 1 else 256 * Power(n - 1)
  }

  lemma Powers()
    ensures Power(1) == 0x100 && Power(2) == 0x1_0000 && Power(4) == 0x1_0000_0000 && Power(8) == WORD
  {
    assert Power(0) == 1 && Power(3) == 0x100_0000 && Power(5) == 0x100_0000_0000;
    assert Power(6) == 0x1_0000_0000_0000 && Power(7) == 0x100_0000_0000_0000;
  }

  /** Byte number k of a number. */
  function ByteOf(v: int, k: nat): int { v / Power(k) % 256 }

  // ---------------------------------------------------------------- memory

  /** How far an address lies behind another, round the end of memory. */
  function Ahead(x: int, a: int): int { Wrap(x - a) }

  lemma ByteStored(m: Memory, a: int, v: int, x: int)
    ensures Byte(m[Wrap(a) := v % 256], x) == if Ahead(x, a) == 0 then v % 256 else Byte(m, x)
  {
    SameAddress(x, a);
  }

  lemma SameAddress(x: int, a: int)
    ensures Wrap(x) == Wrap(a) <==> Wrap(x - a) == 0
  {
    var d := x - a;
    assert x == a + d;
    if d % WORD == 0 {
      assert d == (d / WORD) * WORD;
      DivideUnique(a + d, WORD, a / WORD + d / WORD, a % WORD);
    } else if x % WORD == a % WORD {
      assert d == (x / WORD - a / WORD) * WORD;
      DivideUnique(d, WORD, x / WORD - a / WORD, 0);
    }
  }

  lemma AheadOne(x: int, a: int)
    ensures Ahead(x, a + 1) == if Ahead(x, a) == 0 then WORD - 1 else Ahead(x, a) - 1
  {
    var d := x - a;
    var q, r := d / WORD, d % WORD;
    if r == 0 {
      DivideUnique(d - 1, WORD, q - 1, WORD - 1);
    } else {
      DivideUnique(d - 1, WORD, q, r - 1);
    }
  }

  lemma ByteOfNext(v: int, k: nat)
    ensures ByteOf(v / 256, k) == ByteOf(v, k + 1) && ByteOf(v, 0) == v % 256
  {
    DivideTwice(v, 256, Power(k));
  }

  lemma DivideTwice(v: int, a: nat, b: nat)
    requires a > 0 && b > 0
    ensures a * b > 0 && v / a / b == v / (a * b)
  {
    var q, r := v / a, v % a;
    var s, t := q / b, q % b;
    assert v == q * a + r && q == s * b + t;
    assert v == s * (a * b) + (t * a + r) by { Regroup(s, b, t, a, r); }
    Below(t, b, a, r);
    DivideUnique(v, a * b, s, t * a + r);
  }

  lemma Regroup(s: int, b: int, t: int, a: int, r: int)
    ensures (s * b + t) * a + r == s * (a * b) + (t * a + r)
  {
  }

  lemma Below(t: nat, b: nat, a: nat, r: nat)
    requires t < b && r < a
    ensures 0 <= t * a + r < a * b
  {
    Multiples(t + 1, b, a);
    assert (t + 1) * a == t * a + a;
  }

  /** A store changes the n bytes at its address, each to the byte of the value, and no other. */
  lemma {:induction false} StoreIs(m: Memory, a: int, n: nat, v: int, x: int)
    requires n <= 8
    ensures Byte(Store(m, a, n, v), x) == if Ahead(x, a) < n then ByteOf(v, Ahead(x, a)) else Byte(m, x)
    decreases n
  {
    hide Wrap, Byte, ByteOf;
    AheadRange(x, a);
    if n > 0 {
      StoreIs(m[Wrap(a) := v % 256], a + 1, n - 1, v / 256, x);
      ByteStored(m, a, v, x);
      AheadOne(x, a);
      var k := Ahead(x, a);
      ByteOfNext(v, if k > 0 then k - 1 else 0);
    }
  }

  lemma AheadRange(x: int, a: int)
    ensures 0 <= Ahead(x, a) < WORD
  {
  }

  /** Reading n bytes gives the number below 256^n that has them as its bytes. */
  lemma {:induction false} LoadIs(m: Memory, a: int, n: nat, k: nat)
    ensures 0 <= LoadFrom(m, a, n) < Power(n) && (k < n ==> ByteOf(LoadFrom(m, a, n), k) == Byte(m, a + k))
    decreases n
  {
    hide ByteOf;
    if n > 0 {
      LoadIs(m, a + 1, n - 1, if k > 0 then k - 1 else 0);
      var rest, v := LoadFrom(m, a + 1, n - 1), LoadFrom(m, a, n);
      ByteRange(m, a);
      DivideUnique(v, 256, rest, Byte(m, a));
      ByteOfNext(v, if k > 0 then k - 1 else 0);
    }
  }

  lemma ByteRange(m: Memory, a: int)
    ensures 0 <= Byte(m, a) < 256
  {
  }

  /** Scalars take one, two, four or eight bytes. */
  predicate Sized(t: Type) { Scalar(t) && (Size(t) == 1 || Size(t) == 2 || Size(t) == 4 || Size(t) == 8) }

  /** The number whose bytes lie at an address. */
  ghost predicate Reads(m: Memory, a: int, n: nat, v: int) {
    0 <= v < Power(n) && forall k: nat :: k < n ==> ByteOf(v, k) == Byte(m, a + k)
  }

  /** m2 is m1 with n bytes at an address replaced by those of a value. */
  ghost predicate Writes(m1: Memory, m2: Memory, a: int, n: nat, v: int) {
    forall x: int :: Byte(m2, x) == if Ahead(x, a) < n then ByteOf(v, Ahead(x, a)) else Byte(m1, x)
  }

  /** The value of an object is the number in its bytes, zero-extended. */
  lemma FetchReads(t: Type, m: Memory, a: word)
    requires Sized(t)
    ensures Reads(m, a, Size(t), Fetch(t, m, a))
  {
    hide LoadFrom, Byte, ByteOf, Power;
    var n := Size(t);
    Powers();
    LoadIs(m, a, n, 0);
    assert Fetch(t, m, a) == LoadFrom(m, a, n);
    forall k: nat | k < n
      ensures ByteOf(LoadFrom(m, a, n), k) == Byte(m, a + k)
    {
      LoadIs(m, a, n, k);
    }
  }

  /** Reading is a function of the bytes: two numbers with the same bytes are the same. */
  lemma {:induction false} SameBytes(u: int, v: int, n: nat)
    requires 0 <= u < Power(n) && 0 <= v < Power(n) && forall k: nat :: k < n ==> ByteOf(u, k) == ByteOf(v, k)
    ensures u == v
    decreases n
  {
    if n > 0 {
      forall k: nat | k < n - 1
        ensures ByteOf(u / 256, k) == ByteOf(v / 256, k)
      {
        ByteOfNext(u, k);
        ByteOfNext(v, k);
        assert ByteOf(u, k + 1) == ByteOf(v, k + 1);
      }
      ByteOfNext(u, 0);
      ByteOfNext(v, 0);
      assert ByteOf(u, 0) == ByteOf(v, 0);
      assert u / 256 < Power(n - 1) && v / 256 < Power(n - 1);
      SameBytes(u / 256, v / 256, n - 1);
    }
  }

  lemma NarrowIs(t: Type, v: word)
    requires Sized(t)
    ensures Narrow(t, v) == v % Power(Size(t))
  {
    Powers();
    EightBits(1);
    EightBits(2);
    EightBits(4);
  }

  lemma {:induction false} EightBits(n: nat)
    ensures Pow2(8 * n) == Power(n)
  {
    if n > 0 {
      EightBits(n - 1);
      var k := 8 * (n - 1);
      assert Pow2(k + 8) == 2 * Pow2(k + 7) && Pow2(k + 7) == 2 * Pow2(k + 6) && Pow2(k + 6) == 2 * Pow2(k + 5);
      assert Pow2(k + 5) == 2 * Pow2(k + 4) && Pow2(k + 4) == 2 * Pow2(k + 3) && Pow2(k + 3) == 2 * Pow2(k + 2);
      assert Pow2(k + 2) == 2 * Pow2(k + 1) && Pow2(k + 1) == 2 * Pow2(k);
    }
  }

  lemma StoreWrites(m: Memory, a: int, t: Type, v: int)
    requires Sized(t)
    ensures Writes(m, Store(m, a, Width(t), v), a, Size(t), v)
  {
    hide Store, Byte, ByteOf;
    forall x: int
      ensures Byte(Store(m, a, Width(t), v), x) == if Ahead(x, a) < Size(t) then ByteOf(v, Ahead(x, a)) else Byte(m, x)
    {
      StoreIs(m, a, Size(t), v, x);
    }
  }

  // ---------------------------------------------------------------- objects

  /** Reading an object: the number in the bytes at its address. */
  lemma ReadLaw(e: Expr, w: World, f: Frame, m: Memory, depth: nat)
    requires (e.Var? || e.Deref? || e.Member?) && Sized(e.ty) && Meaning(e, w, f, m, depth).Some?
    ensures AddressOf(e, w, f, m, depth).Some?
    ensures var p, r := AddressOf(e, w, f, m, depth).value, Meaning(e, w, f, m, depth).value;
      r.mem == p.mem && Reads(p.mem, p.value, Size(e.ty), r.value)
  {
    hide Fetch, Reads, AddressOf;
    var p := AddressOf(e, w, f, m, depth).value;
    FetchReads(e.ty, p.mem, p.value);
  }

  /** Assigning: exactly the bytes of the object change, to those of the value, which is also the result. */
  lemma AssignLaw(a: Expr, b: Expr, w: World, f: Frame, m: Memory, depth: nat)
    requires Sized(TypeOf(a)) && Meaning(Assign(None, a, b), w, f, m, depth).Some?
    ensures AddressOf(a, w, f, m, depth).Some?
    ensures Meaning(b, w, f, AddressOf(a, w, f, m, depth).value.mem, depth + 1).Some?
    ensures var p, r, n := AddressOf(a, w, f, m, depth).value, Meaning(Assign(None, a, b), w, f, m, depth).value, Size(TypeOf(a));
      var y := Meaning(b, w, f, p.mem, depth + 1).value;
      r.value == y.value % Power(n) && Writes(y.mem, r.mem, p.value, n, r.value)
  {
    hide AddressOf, Narrow, Store, Writes, Width, TypeOf;
    var p := AddressOf(a, w, f, m, depth).value;
    var y := Meaning(b, w, f, p.mem, depth + 1).value;
    NarrowIs(TypeOf(a), y.value);
    StoreWrites(y.mem, p.value, TypeOf(a), Narrow(TypeOf(a), y.value));
  }

  /** What was written reads back, and objects elsewhere read as before. */
  lemma ReadBack(m1: Memory, m2: Memory, a: int, n: nat, v: int, u: int)
    requires Writes(m1, m2, a, n, v) && Reads(m2, a, n, u) && n <= 8 && 0 <= v < Power(n)
    ensures u == v
  {
    hide Byte, ByteOf, Wrap;
    forall k: nat | k < n
      ensures ByteOf(u, k) == ByteOf(v, k)
    {
      AheadBy(a, k);
      assert ByteOf(u, k) == Byte(m2, a + k);
    }
    SameBytes(u, v, n);
  }

  lemma AheadBy(a: int, k: nat)
    requires k < WORD
    ensures Ahead(a + k, a) == k
  {
    DivideUnique(a + k - a, WORD, 0, k);
  }

  /** Byte j behind b is none of the n bytes at a. */
  predicate Outside(a: int, n: nat, b: int, j: nat) { Ahead(b + j, a) >= n }

  lemma ReadElsewhere(m1: Memory, m2: Memory, a: int, n: nat, v: int, b: int, k: nat, u: int)
    requires Writes(m1, m2, a, n, v) && forall j: nat :: j < k ==> Outside(a, n, b, j)
    ensures Reads(m2, b, k, u) <==> Reads(m1, b, k, u)
  {
    hide Byte, ByteOf, Wrap, Ahead;
    forall j: nat | j < k
      ensures ByteOf(u, j) == Byte(m2, b + j) <==> ByteOf(u, j) == Byte(m1, b + j)
    {
      assert Outside(a, n, b, j);
    }
  }

  /** Assigning with an operator: the old value is read first, and the result is stored as in a plain assignment. */
  lemma AssignOpLaw(op: Op, a: Expr, b: Expr, w: World, f: Frame, m: Memory, depth: nat) returns (was: word, u: word)
    requires Sized(TypeOf(a)) && Meaning(Assign(Some(op), a, b), w, f, m, depth).Some?
    ensures AddressOf(a, w, f, m, depth).Some?
    ensures Meaning(b, w, f, AddressOf(a, w, f, m, depth).value.mem, depth + 2).Some?
    ensures var p, r, n := AddressOf(a, w, f, m, depth).value, Meaning(Assign(Some(op), a, b), w, f, m, depth).value, Size(TypeOf(a));
      var y := Meaning(b, w, f, p.mem, depth + 2).value;
      && Reads(p.mem, p.value, n, was) && Apply(op, TypeOf(a), TypeOf(b), was, y.value) == Some(u)
      && r.value == u % Power(n) && Writes(y.mem, r.mem, p.value, n, r.value)
  {
    hide AddressOf, Narrow, Store, Writes, Width, TypeOf, Fetch, Reads, Apply;
    var p, t := AddressOf(a, w, f, m, depth).value, TypeOf(a);
    var y := Meaning(b, w, f, p.mem, depth + 2).value;
    was := Fetch(t, p.mem, p.value);
    u := Apply(op, t, TypeOf(b), was, y.value).value;
    FetchReads(t, p.mem, p.value);
    NarrowIs(t, u);
    StoreWrites(y.mem, p.value, t, Narrow(t, u));
  }

  /** Counting up and down goes by one, or by the size of what a pointer points to; before and after are what they say. */
  lemma CountLaw(pre: bool, up: bool, a: Expr, w: World, f: Frame, m: Memory, depth: nat) returns (was: word, now: word)
    requires Sized(TypeOf(a)) && Meaning(IncDec(pre, up, a), w, f, m, depth).Some?
    ensures AddressOf(a, w, f, m, depth).Some?
    ensures var p, r, t := AddressOf(a, w, f, m, depth).value, Meaning(IncDec(pre, up, a), w, f, m, depth).value, TypeOf(a);
      var step := if t.Ptr? then Size(t.base) else 1;
      && Reads(p.mem, p.value, Size(t), was) && now == (if up then was + step else was - step) % Power(Size(t))
      && r.value == (if pre then now else was) && Writes(p.mem, r.mem, p.value, Size(t), now)
  {
    hide AddressOf, Narrow, Store, Writes, Width, TypeOf, Fetch, Reads;
    var p, t := AddressOf(a, w, f, m, depth).value, TypeOf(a);
    was := Fetch(t, p.mem, p.value);
    var x := if up then was + Stride(t) else was - Stride(t);
    now := Narrow(t, Wrap(x));
    FetchReads(t, p.mem, p.value);
    NarrowIs(t, Wrap(x));
    WrapThenNarrow(x, Size(t));
    StoreWrites(p.mem, p.value, t, now);
  }

  lemma WrapThenNarrow(x: int, n: nat)
    requires n == 1 || n == 2 || n == 4 || n == 8
    ensures Wrap(x) % Power(n) == x % Power(n)
  {
    Powers();
    TwiceReduced(x, Power(n), if n == 1 then 0x100_0000_0000_0000 else if n == 2 then 0x1_0000_0000_0000 else if n == 4 then 0x1_0000_0000 else 1);
  }

  lemma TwiceReduced(x: int, p: nat, q: nat)
    requires p > 0 && q * p == WORD
    ensures x % WORD % p == x % p
  {
    var s, t := x / WORD, x % WORD;
    var u, r := t / p, t % p;
    assert x == s * WORD + t && t == u * p + r;
    assert x == (s * q + u) * p + r by { Factor(s, q, u, p, r); }
    DivideUnique(x, p, s * q + u, r);
  }

  lemma Factor(s: int, q: int, u: int, p: int, r: int)
    ensures s * (q * p) + (u * p + r) == (s * q + u) * p + r
  {
  }

  /** A cast keeps the low bytes that the type has room for. */
  lemma CastLaw(a: Expr, t: Type, w: World, f: Frame, m: Memory, depth: nat)
    requires Sized(t) && Meaning(Cast(a, t), w, f, m, depth).Some?
    ensures Meaning(a, w, f, m, depth).Some?
    ensures var x, r := Meaning(a, w, f, m, depth).value, Meaning(Cast(a, t), w, f, m, depth).value;
      r.mem == x.mem && r.value == x.value % Power(Size(t))
  {
    hide Narrow;
    NarrowIs(t, Meaning(a, w, f, m, depth).value.value);
  }

  // ---------------------------------------------------------------- operators

  /** A type that takes part as an address. */
  predicate Points(t: Type) { t.Ptr? || t.Arr? }

  /** An operation is unsigned when either operand is an address or an eight-byte unsigned number. */
  predicate Unsigned(l: Type, r: Type) {
    Points(l) || Points(r) || l == U64 || r == U64
  }

  /** The number a word is read as. */
  ghost predicate Stands(x: word, uns: bool, n: int) {
    if uns then n == x else -0x8000_0000_0000_0000 <= n < 0x8000_0000_0000_0000 && (x == n || x == n + WORD)
  }

  /** q is x over y rounded toward zero, with r left over on the side of x. */
  ghost predicate Truncated(x: int, y: int, q: int, r: int) {
    && x == q * y + r
    && (x >= 0 ==> r >= 0) && (x <= 0 ==> r <= 0)
    && (if y > 0 then -y < r < y else y < r < -y)
  }

  lemma NumberOf(x: word, uns: bool) returns (n: int)
    ensures Stands(x, uns, n) && forall k: int :: Stands(x, uns, k) ==> k == n
    ensures n == if uns then x else Signed(x)
  {
    n := if uns then x else Signed(x);
  }

  lemma WordOf(n: int)
    requires -0x8000_0000_0000_0000 <= n < 0x8000_0000_0000_0000
    ensures Stands(Wrap(n), false, n)
  {
    if n >= 0 {
      DivideUnique(n, WORD, 0, n);
    } else {
      DivideUnique(n, WORD, -1, n + WORD);
    }
  }

  lemma QuotTruncates(x: int, y: int)
    requires y != 0
    ensures Truncated(x, y, Quot(x, y), x - Quot(x, y) * y)
  {
    hide Quot, Truncated;
    var b: nat := if y < 0 then -y else y;
    var a: nat := if x < 0 then -x else x;
    QuotIs(x, y, a, b);
    var q := Quot(x, y);
    TimesDivisor(x, y, a, b, q);
    Leftover(x, y, q, a / b * b, a % b);
  }

  lemma TimesDivisor(x: int, y: int, a: nat, b: nat, q: int)
    requires b > 0 && (y == b || y + b == 0) && q == if (x >= 0) == (y > 0) then a / b else -(a / b)
    ensures q * y == (if x >= 0 then a / b * b else -(a / b * b)) && a / b * b >= 0
  {
    Signs(a / b, b);
    Multiples(0, a / b, b);
  }

  lemma QuotIs(x: int, y: int, a: nat, b: nat)
    requires y != 0 && b != 0 && a == (if x < 0 then -x else x) && b == if y < 0 then -y else y
    ensures Quot(x, y) == if (x >= 0) == (y > 0) then a / b else -(a / b)
  {
  }

  lemma Leftover(x: int, y: int, q: int, p: int, r: nat)
    requires y != 0 && r < (if y < 0 then -y else y) && (if x < 0 then -x else x) == p + r && p >= 0
    requires q * y == if x >= 0 then p else -p
    ensures Truncated(x, y, q, x - q * y)
  {
  }

  lemma Signs(q: int, b: int)
    ensures (-q) * b == -(q * b) && q * (-b) == -(q * b) && (-q) * (-b) == q * b
  {
  }

  lemma QuotRange(x: int, y: int)
    requires y != 0 && -0x8000_0000_0000_0000 <= x < 0x8000_0000_0000_0000
    ensures -0x8000_0000_0000_0000 <= Quot(x, y) <= 0x8000_0000_0000_0000
    ensures Quot(x, y) == 0x8000_0000_0000_0000 <==> x == -0x8000_0000_0000_0000 && y == -1
  {
    QuotSmaller(Abs(x), Abs(y));
  }

  lemma QuotSmaller(a: nat, b: nat)
    requires b > 0
    ensures 0 <= a / b <= a && (b == 1 ==> a / b == a) && (b > 1 ==> 2 * (a / b) <= a)
  {
    var q, r := a / b, a % b;
    assert a == q * b + r;
    Multiples(1, b, q);
    if b > 1 {
      Multiples(2, b, q);
    }
  }

  /** Sums and differences, addresses counted in elements. */
  lemma SumLaw(l: Type, r: Type, a: word, b: word)
    ensures var k := if Points(l) && !Points(r) then Size(l.base) else 1;
      Apply(Add, l, r, a, b) == Some((a + b * k) % WORD)
      && (!(Points(l) && Points(r)) ==> Apply(Sub, l, r, a, b) == Some((a - b * k) % WORD))
    ensures Apply(Mul, l, r, a, b) == Some(a * b % WORD)
  {
  }

  /** Addresses take eight bytes, and the elements of an array fill it. */
  lemma {:induction false} SizesLaw(t: Type, n: nat)
    ensures Sized(Ptr(t)) && Size(Ptr(t)) == 8 && Size(Arr(t, 0)) == 0 && Size(Arr(t, n + 1)) == Size(Arr(t, n)) + Size(t)
  {
    assert (n + 1) * Size(t) == n * Size(t) + Size(t);
  }

  /** The difference of two addresses that lie a whole number of elements apart is that number. */
  lemma DistanceLaw(l: Type, r: Type, a: word, b: word, n: int)
    requires Points(l) && Points(r) && 0 < Size(l.base) < 0x8000_0000_0000_0000
    requires a - b == n * Size(l.base) && -0x8000_0000_0000_0000 <= a - b < 0x8000_0000_0000_0000
    ensures Apply(Sub, l, r, a, b).Some? && Stands(Apply(Sub, l, r, a, b).value, false, n)
  {
    hide Quot, Wrap, Size;
    var k := Size(l.base);
    WordOf(a - b);
    var x := NumberOf(Wrap(a - b), false);
    WrapSmall(k);
    QuotTruncates(a - b, k);
    QuotRange(a - b, k);
    var q := Quot(a - b, k);
    assert (n - q) * k == a - b - q * k by { Spread(n, q, k); }
    NoOther(n - q, k);
    WordOf(q);
  }

  lemma WrapSmall(k: int)
    requires 0 <= k < WORD
    ensures Wrap(k) == k
  {
    DivideUnique(k, WORD, 0, k);
  }

  lemma Spread(n: int, q: int, k: int)
    ensures (n - q) * k == n * k - q * k
  {
  }

  lemma NoOther(d: int, k: int)
    requires k > 0 && -k < d * k < k
    ensures d == 0
  {
    if d >= 1 {
      Multiples(1, d, k);
    } else if d <= -1 {
      Multiples(d, -1, k);
    }
  }

  /** Division and remainder: rounded toward zero; a fault exactly for a zero divisor or a quotient of 2^63. */
  lemma DivideLaw(l: Type, r: Type, a: word, b: word, x: int, y: int)
    requires Stands(a, Unsigned(l, r), x) && Stands(b, Unsigned(l, r), y)
    ensures var faults := b == 0 || (!Unsigned(l, r) && x == -0x8000_0000_0000_0000 && y == -1);
      var q, m := Apply(Div, l, r, a, b), Apply(Mod, l, r, a, b);
      && (q.None? <==> faults) && (m.None? <==> faults)
      && (!faults ==> exists i: int, j: int ::
            Truncated(x, y, i, j) && Stands(q.value, Unsigned(l, r), i) && Stands(m.value, Unsigned(l, r), j))
  {
    hide Quot, Wrap, Truncated, Unsigned, Divide, Remainder;
    var x' := NumberOf(a, Unsigned(l, r));
    var y' := NumberOf(b, Unsigned(l, r));
    SignOf(l, r);
    Quotients(l, r, a, b);
    if !Unsigned(l, r) {
      SignedLaw(a, b, x, y);
    } else {
      UnsignedLaw(a, b);
    }
  }

  lemma Quotients(l: Type, r: Type, a: word, b: word)
    ensures Apply(Div, l, r, a, b) == Divide(Unsigned(l, r), a, b)
    ensures Apply(Mod, l, r, a, b) == Remainder(Unsigned(l, r), a, b)
  {
    hide Divide, Remainder;
    SignOf(l, r);
  }

  lemma UnsignedLaw(a: word, b: word)
    ensures Divide(true, a, b).None? <==> b == 0
    ensures Remainder(true, a, b).None? <==> b == 0
    ensures b != 0 ==> Truncated(a, b, Divide(true, a, b).value, Remainder(true, a, b).value)
  {
    hide Truncated;
    if b != 0 {
      UnsignedTruncates(a, b);
    }
  }

  lemma SignedLaw(a: word, b: word, x: int, y: int)
    requires Stands(a, false, x) && Stands(b, false, y)
    ensures var faults := b == 0 || (x == -0x8000_0000_0000_0000 && y == -1);
      && (Divide(false, a, b).None? <==> faults) && (Remainder(false, a, b).None? <==> faults)
      && (!faults ==> exists i: int, j: int ::
            Truncated(x, y, i, j) && Stands(Divide(false, a, b).value, false, i) && Stands(Remainder(false, a, b).value, false, j))
  {
    hide Quot, Wrap, Truncated;
    var x' := NumberOf(a, false);
    var y' := NumberOf(b, false);
    if b != 0 {
      QuotRange(x, y);
      QuotTruncates(x, y);
      var q := Quot(x, y);
      if q < 0x8000_0000_0000_0000 {
        RestRange(x, y, q);
        WordOf(q);
        WordOf(x - q * y);
      }
    }
  }

  lemma RestRange(x: int, y: int, q: int)
    requires Truncated(x, y, q, x - q * y) && -0x8000_0000_0000_0000 <= x < 0x8000_0000_0000_0000
    requires -0x8000_0000_0000_0000 <= y < 0x8000_0000_0000_0000
    ensures -0x8000_0000_0000_0000 <= x - q * y < 0x8000_0000_0000_0000
  {
  }

  lemma UnsignedTruncates(a: nat, b: nat)
    requires b > 0
    ensures Truncated(a, b, a / b, a % b)
  {
  }

  lemma SignOf(l: Type, r: Type)
    ensures Unsigned(l, r) <==> Wide(Decay(l)) || Wide(Decay(r))
  {
  }

  /** Comparisons are of the numbers the words stand for, and give one or zero. */
  lemma CompareLaw(op: Op, l: Type, r: Type, a: word, b: word, x: int, y: int)
    requires op.Lt? || op.Le? || op.Gt? || op.Ge? || op.Eq? || op.Ne?
    requires Stands(a, Unsigned(l, r), x) && Stands(b, Unsigned(l, r), y)
    ensures var holds := match op { case Lt => x < y case Le => x <= y case Gt => x > y case Ge => x >= y case Eq => x == y case _ => x != y };
      Apply(op, l, r, a, b) == Some(if holds then 1 else 0)
  {
    SignOf(l, r);
    hide Unsigned, Wide, Decay;
    var x' := NumberOf(a, Unsigned(l, r));
    var y' := NumberOf(b, Unsigned(l, r));
  }

  lemma Pow64()
    ensures Pow2(0) == 1 && Pow2(64) == WORD
  {
    EightBits(8);
    Powers();
  }

  /** Shifting left multiplies by a power of two, the count taken modulo 64. */
  lemma ShiftLeftLaw(l: Type, r: Type, a: word, b: word)
    ensures Apply(Shl, l, r, a, b) == Some(a * Pow2(b % 64) % WORD)
  {
    hide Pow2;
  }

  /** Shifting right divides by a power of two and rounds down, so that a signed value keeps its sign. */
  lemma ShiftRightLaw(l: Type, r: Type, a: word, b: word, x: int)
    requires Stands(a, Unsigned(l, r), x)
    ensures Apply(Shr, l, r, a, b).Some? && Stands(Apply(Shr, l, r, a, b).value, Unsigned(l, r), x / Pow2(b % 64))
  {
    hide Wrap, Pow2;
    SignOf(l, r);
    var x' := NumberOf(a, Unsigned(l, r));
    var k := Pow2(b % 64);
    Shrinks(x, k);
    if Unsigned(l, r) {
      WrapSmall(x / k);
    } else {
      WordOf(x / k);
    }
  }

  lemma Shrinks(x: int, k: nat)
    requires k > 0
    ensures x >= 0 ==> 0 <= x / k <= x
    ensures x < 0 ==> x <= x / k < 0
  {
    if x >= 0 {
      QuotSmaller(x, k);
    } else {
      var q, r := x / k, x % k;
      var p: int := q * k;
      assert x == p + r;
      if q >= 0 {
        Multiples(0, q, k);
        assert false;
      }
      var a := -1 - q;
      assert p == -(a * k) - k by { Spread(-1, a, k); }
      Multiples(1, k, a);
    }
  }

  /** Binary digit i of a number. */
  function Digit(v: int, i: nat): int { v / Pow2(i) % 2 }

  lemma DigitNext(v: int, i: nat)
    ensures Digit(v / 2, i) == Digit(v, i + 1) && Digit(v, 0) == v % 2
  {
    DivideTwice(v, 2, Pow2(i));
  }

  lemma {:induction false} DigitsAre(op: Op, a: nat, b: nat, n: nat, i: nat)
    requires i < n
    ensures Digit(Digits(op, a, b, n), i) == Bit(op, Digit(a, i), Digit(b, i))
    decreases n
  {
    hide Digit;
    var v := Digits(op, a, b, n);
    var d, rest := Bit(op, a % 2, b % 2), Digits(op, a / 2, b / 2, n - 1);
    DivideUnique(v, 2, rest, d);
    DigitRange(a, i);
    DigitRange(b, i);
    if i == 0 {
      DigitNext(v, 0);
      DigitNext(a, 0);
      DigitNext(b, 0);
    } else {
      DigitsAre(op, a / 2, b / 2, n - 1, i - 1);
      DigitNext(v, i - 1);
      DigitNext(a, i - 1);
      DigitNext(b, i - 1);
    }
  }

  lemma DigitRange(v: int, i: nat)
    ensures 0 <= Digit(v, i) <= 1
  {
  }

  /** And, or and exclusive or work digit by digit. */
  lemma BitwiseLaw(l: Type, r: Type, a: word, b: word, i: nat)
    requires i < 64
    ensures Apply(BAnd, l, r, a, b).Some? && Apply(BOr, l, r, a, b).Some? && Apply(BXor, l, r, a, b).Some?
    ensures Digit(Apply(BAnd, l, r, a, b).value, i) == 1 <==> Digit(a, i) == 1 && Digit(b, i) == 1
    ensures Digit(Apply(BOr, l, r, a, b).value, i) == 1 <==> Digit(a, i) == 1 || Digit(b, i) == 1
    ensures Digit(Apply(BXor, l, r, a, b).value, i) == 1 <==> Digit(a, i) != Digit(b, i)
  {
    hide Digit, Digits, Wrap;
    Pow64();
    hide Pow2;
    DigitRange(a, i);
    DigitRange(b, i);
    forall op | op in {BAnd, BOr, BXor}
      ensures Bits(op, a, b) == Digits(op, a, b, 64) && Digit(Bits(op, a, b), i) == Bit(op, Digit(a, i), Digit(b, i))
    {
      WrapSmall(Digits(op, a, b, 64));
      DigitsAre(op, a, b, 64, i);
    }
  }

  /** Complement turns every digit over; minus is the number that adds up to zero; not is one for zero alone. */
  lemma UnaryLaw(a: Expr, w: World, f: Frame, m: Memory, depth: nat, x: word, m1: Memory)
    requires Meaning(a, w, f, m, depth) == Some(Done(x, m1))
    ensures Meaning(Neg(a), w, f, m, depth).Some? && Meaning(BitNot(a), w, f, m, depth).Some?
    ensures var r := Meaning(Neg(a), w, f, m, depth).value; (r.value + x) % WORD == 0 && r.mem == m1
    ensures var r := Meaning(BitNot(a), w, f, m, depth).value; r.value + x == WORD - 1 && r.mem == m1
    ensures Meaning(Not(a), w, f, m, depth) == Some(Done(if x == 0 then 1 else 0, m1))
  {
    hide Meaning;
    NegMeaning(Neg(a), w, f, m, depth);
    ComplementMeaning(BitNot(a), w, f, m, depth);
    NotMeaning(Not(a), w, f, m, depth);
    if x == 0 {
      WrapSmall(0);
    } else {
      DivideUnique(0 - x, WORD, -1, WORD - x);
    }
  }

  lemma NegMeaning(e: Expr, w: World, f: Frame, m: Memory, depth: nat)
    requires e.Neg? && Meaning(e.a, w, f, m, depth).Some?
    ensures var x := Meaning(e.a, w, f, m, depth).value;
      Meaning(e, w, f, m, depth) == Some(Done(Wrap(0 - x.value), x.mem))
  {
    hide Wrap, Fetch, Store, Narrow, Width, Apply, TypeOf, AddressOf, Arguments, Invoke, Stride;
  }

  lemma ComplementMeaning(e: Expr, w: World, f: Frame, m: Memory, depth: nat)
    requires e.BitNot? && Meaning(e.a, w, f, m, depth).Some?
    ensures var x := Meaning(e.a, w, f, m, depth).value;
      Meaning(e, w, f, m, depth) == Some(Done(WORD - 1 - x.value, x.mem))
  {
    hide Wrap, Fetch, Store, Narrow, Width, Apply, TypeOf, AddressOf, Arguments, Invoke, Stride;
  }

  lemma NotMeaning(e: Expr, w: World, f: Frame, m: Memory, depth: nat)
    requires e.Not? && Meaning(e.a, w, f, m, depth).Some?
    ensures var x := Meaning(e.a, w, f, m, depth).value;
      Meaning(e, w, f, m, depth) == Some(Done(Bool(x.value == 0), x.mem))
  {
    hide Wrap, Fetch, Store, Narrow, Width, Apply, TypeOf, AddressOf, Arguments, Invoke, Stride;
  }

  // ---------------------------------------------------------------- addresses, order and control

  /** Where objects lie: locals below the frame's base, members behind their struct, elements a size apart. */
  lemma PlaceLaw(off: nat, t: Type, a: Expr, b: Expr, w: World, f: Frame, m: Memory, depth: nat)
    ensures AddressOf(Var(Local(off), t), w, f, m, depth) == Some(Done((f.base - off) % WORD, m))
    ensures AddressOf(Var(Global(off), t), w, f, m, depth) == Some(Done((w.data + off) % WORD, m))
    ensures AddressOf(Var(Tls(off), t), w, f, m, depth) == Some(Done((w.tls + off) % WORD, m))
    ensures forall p: Done :: AddressOf(a, w, f, m, depth) == Some(p) ==>
      AddressOf(Member(a, off, t), w, f, m, depth) == Some(Done((p.value + off) % WORD, p.mem))
  {
  }

  lemma ElementLaw(a: Expr, b: Expr, t: Type, w: World, f: Frame, m: Memory, depth: nat, x: Done, y: Done)
    requires Meaning(a, w, f, m, depth) == Some(x) && Meaning(b, w, f, x.mem, depth + 1) == Some(y)
    requires Points(TypeOf(a)) && !Points(TypeOf(b))
    ensures AddressOf(Deref(Binary(Add, a, b, t), t), w, f, m, depth)
      == Some(Done((x.value + y.value * Size(TypeOf(a).base)) % WORD, y.mem))
  {
    SumLaw(TypeOf(a), TypeOf(b), x.value, y.value);
    hide Apply, Wrap, TypeOf, Size;
  }

  /** The right operand runs only if the left has not decided; the result is one or zero. */
  lemma ShortLaw(a: Expr, b: Expr, w: World, f: Frame, m: Memory, depth: nat, x: Done)
    requires Meaning(a, w, f, m, depth) == Some(x)
    ensures x.value == 0 ==> Meaning(AndAlso(a, b), w, f, m, depth) == Some(Done(0, x.mem))
    ensures x.value != 0 ==> Meaning(OrElse(a, b), w, f, m, depth) == Some(Done(1, x.mem))
    ensures x.value == 0 ==> Meaning(OrElse(a, b), w, f, m, depth) == Meaning(Not(Not(b)), w, f, x.mem, depth)
    ensures x.value != 0 ==> Meaning(AndAlso(a, b), w, f, m, depth) == Meaning(Not(Not(b)), w, f, x.mem, depth)
  {
    hide Meaning;
    AndMeaning(a, b, w, f, m, depth, x);
    OrMeaning(a, b, w, f, m, depth, x);
    if Meaning(b, w, f, x.mem, depth).Some? {
      NotMeaning(Not(b), w, f, x.mem, depth);
      NotMeaning(Not(Not(b)), w, f, x.mem, depth);
    } else {
      NotFaults(b, w, f, x.mem, depth);
      NotFaults(Not(b), w, f, x.mem, depth);
    }
  }

  lemma NotFaults(a: Expr, w: World, f: Frame, m: Memory, depth: nat)
    requires Meaning(a, w, f, m, depth).None?
    ensures Meaning(Not(a), w, f, m, depth).None?
  {
  }

  lemma AndMeaning(a: Expr, b: Expr, w: World, f: Frame, m: Memory, depth: nat, x: Done)
    requires Meaning(a, w, f, m, depth) == Some(x)
    ensures x.value == 0 ==> Meaning(AndAlso(a, b), w, f, m, depth) == Some(Done(0, x.mem))
    ensures x.value != 0 ==> Meaning(AndAlso(a, b), w, f, m, depth) == (match Meaning(b, w, f, x.mem, depth) case None => None case Some(y) => Some(Done(Bool(y.value != 0), y.mem)))
  {
  }

  lemma OrMeaning(a: Expr, b: Expr, w: World, f: Frame, m: Memory, depth: nat, x: Done)
    requires Meaning(a, w, f, m, depth) == Some(x)
    ensures x.value != 0 ==> Meaning(OrElse(a, b), w, f, m, depth) == Some(Done(1, x.mem))
    ensures x.value == 0 ==> Meaning(OrElse(a, b), w, f, m, depth) == (match Meaning(b, w, f, x.mem, depth) case None => None case Some(y) => Some(Done(Bool(y.value != 0), y.mem)))
  {
  }

  /** A condition chooses which of its two parts runs. */
  lemma ChoiceLaw(e: Expr, w: World, f: Frame, m: Memory, depth: nat, x: Done)
    requires e.Cond? && Meaning(e.a, w, f, m, depth) == Some(x)
    ensures Meaning(e, w, f, m, depth) == Meaning(if x.value != 0 then e.b else e.c, w, f, x.mem, depth)
  {
    hide Wrap, Fetch, Store, Narrow, Width, Apply, TypeOf, AddressOf, Arguments, Invoke, Stride;
  }

  /** Operands run left to right. */
  lemma OrderLaw(e: Expr, w: World, f: Frame, m: Memory, depth: nat, x: Done, y: Done)
    requires e.Binary? && Meaning(e.a, w, f, m, depth) == Some(x) && Meaning(e.b, w, f, x.mem, depth + 1) == Some(y)
    ensures var v := Apply(e.op, TypeOf(e.a), TypeOf(e.b), x.value, y.value);
      Meaning(e, w, f, m, depth) == if v.None? then None else Some(Done(v.value, y.mem))
  {
    hide Wrap, Fetch, Store, Narrow, Width, Apply, TypeOf, AddressOf, Arguments, Invoke, Stride;
  }

  /** Arguments run left to right and are handed over in that order; the result is cut to its type. */
  lemma {:induction false} ArgumentsLaw(args: seq<Expr>, w: World, f: Frame, m: Memory, depth: nat) returns (ms: seq<Memory>)
    requires Arguments(args, w, f, m, depth).Some?
    ensures var r := Arguments(args, w, f, m, depth).value;
      && |ms| == |args| + 1 && |r.values| == |args| && ms[0] == m && ms[|args|] == r.mem
      && forall i :: 0 <= i < |args| ==> Meaning(args[i], w, f, ms[i], depth + i) == Some(Done(r.values[i], ms[i + 1]))
    decreases |args|
  {
    hide Meaning;
    if args == [] {
      ms := [m];
    } else {
      var x := Meaning(args[0], w, f, m, depth).value;
      var rest := ArgumentsLaw(args[1..], w, f, x.mem, depth + 1);
      ms := [m] + rest;
      var vs := Arguments(args, w, f, m, depth).value.values;
      forall i | 0 <= i < |args|
        ensures Meaning(args[i], w, f, ms[i], depth + i) == Some(Done(vs[i], ms[i + 1]))
      {
        if i > 0 {
          assert args[1..][i - 1] == args[i] && rest[i - 1] == ms[i] && rest[i] == ms[i + 1];
        }
      }
    }
  }

  /** A while loop: stop when the test is zero, else run the body and start over, unless it broke out or returned. */
  lemma WhileLaw(c: Expr, b: Stmt, w: World, f: Frame, m: Memory, n: nat, x: Done)
    requires Meaning(c, w, f, m, 0) == Some(x)
    ensures x.value == 0 ==> Run(While(c, b), w, f, m, n) == Normal(x.mem)
    ensures x.value != 0 ==>
      Run(While(c, b), w, f, m, n + 1) == match Run(b, w, f, x.mem, n) {
        case Normal(m1) => Run(While(c, b), w, f, m1, n)
        case Continued(m1) => Run(While(c, b), w, f, m1, n)
        case Broke(m1) => Normal(m1)
        case o => o }
  {
    hide Meaning;
  }

  /** Going on early skips the rest of the body but not the step. */
  lemma ContinueLaw(t: Option<Expr>, p: Expr, b: Stmt, w: World, f: Frame, m: Memory, n: nat, m1: Memory, y: Done)
    requires t.None? && Run(b, w, f, m, n) == Continued(m1) && Meaning(p, w, f, m1, 0) == Some(y)
    ensures Run(For(None, t, Some(p), b), w, f, m, n + 1) == Run(For(None, t, Some(p), b), w, f, y.mem, n)
  {
    hide Meaning;
  }

  /** Without early continuation a for loop is its initialization followed by a while loop over body and step. */
  lemma ForIsWhile(i: Stmt, t: Expr, p: Expr, b: Stmt, w: World, f: Frame, m: Memory, n: nat)
    requires forall k: nat, m1: Memory :: !Run(b, w, f, m1, k).Continued?
    ensures Run(For(Some(i), Some(t), Some(p), b), w, f, m, n)
      == Run(Block([i, While(t, Block([b, Eval(Some(p))]))]), w, f, m, n)
  {
    hide Meaning, Loop;
    var loop := While(t, Block([b, Eval(Some(p))]));
    assert [i, loop][1..] == [loop] && [loop][1..] == [];
    var o := Run(i, w, f, m, n);
    if o.Normal? {
      assert RunAll([loop], w, f, o.mem, n) == Run(loop, w, f, o.mem, n);
      LoopFolds(t, p, b, w, f, o.mem, n);
    }
  }

  lemma {:induction false} LoopFolds(t: Expr, p: Expr, b: Stmt, w: World, f: Frame, m: Memory, n: nat)
    requires forall k: nat, m1: Memory :: !Run(b, w, f, m1, k).Continued?
    ensures Loop(Some(t), Some(p), b, w, f, m, n) == Loop(Some(t), None, Block([b, Eval(Some(p))]), w, f, m, n)
    decreases n
  {
    hide Meaning;
    var x := Meaning(t, w, f, m, 0);
    if x.Some? && x.value.value != 0 && n > 0 {
      var ss := [b, Eval(Some(p))];
      assert ss[1..] == [Eval(Some(p))] && ss[1..][1..] == [];
      var o := Run(b, w, f, x.value.mem, n - 1);
      assert Run(Block(ss), w, f, x.value.mem, n - 1) == RunAll(ss, w, f, x.value.mem, n - 1);
      if o.Normal? {
        var y := RunEval(Some(p), w, f, o.mem);
        assert RunAll(ss[1..], w, f, o.mem, n - 1) == y;
        if y.Normal? {
          LoopFolds(t, p, b, w, f, y.mem, n - 1);
        }
      }
    }
  }

  // ---------------------------------------------------------------- parameters

  function SlotOf(p: Param, f: Frame): int { Wrap(f.base - p.offset) }

  /** The n bytes at a meet no parameter's slot. */
  ghost predicate Clear(ps: seq<Param>, f: Frame, a: int, n: nat) {
    forall i, j: nat :: 0 <= i < |ps| && j < n ==> Outside(SlotOf(ps[i], f), Size(ps[i].ty), a, j)
  }

  /** Binding changes no object outside the slots. */
  lemma {:induction false} BindKeeps(ps: seq<Param>, xs: seq<word>, f: Frame, m: Memory, a: int, n: nat, u: int)
    requires |ps| == |xs| && Clear(ps, f, a, n) && forall i :: 0 <= i < |ps| ==> Sized(ps[i].ty)
    ensures Reads(BindParams(ps, xs, f, m), a, n, u) <==> Reads(m, a, n, u)
  {
    hide Reads, Store, Narrow, Width, Outside, Writes;
    if ps != [] {
      var p, v := ps[0], Narrow(ps[0].ty, xs[0]);
      var m1 := Store(m, SlotOf(p, f), Width(p.ty), v);
      StoreWrites(m, SlotOf(p, f), p.ty, v);
      ReadElsewhere(m, m1, SlotOf(p, f), Size(p.ty), v, a, n, u);
      BindKeeps(ps[1..], xs[1..], f, m1, a, n, u);
    }
  }

  /** A function starts with each parameter holding its argument, cut to the parameter's size. */
  lemma {:induction false} ParamsLaw(ps: seq<Param>, xs: seq<word>, f: Frame, m: Memory, i: nat, u: int)
    requires |ps| == |xs| && i < |ps| && (forall k :: 0 <= k < |ps| ==> Sized(ps[k].ty))
    requires Clear(ps[i + 1..], f, SlotOf(ps[i], f), Size(ps[i].ty))
    ensures Reads(BindParams(ps, xs, f, m), SlotOf(ps[i], f), Size(ps[i].ty), u) <==> u == xs[i] % Power(Size(ps[i].ty))
    decreases ps
  {
    hide Reads, Store, Narrow, Width, Outside, Writes, Clear;
    var p, v := ps[0], Narrow(ps[0].ty, xs[0]);
    var m1 := Store(m, SlotOf(p, f), Width(p.ty), v);
    if i > 0 {
      assert ps[1..][i..] == ps[i + 1..];
      ParamsLaw(ps[1..], xs[1..], f, m1, i - 1, u);
    } else {
      NarrowIs(p.ty, xs[0]);
      StoreWrites(m, SlotOf(p, f), p.ty, v);
      BindKeeps(ps[1..], xs[1..], f, m1, SlotOf(p, f), Size(p.ty), u);
      WrittenReads(m, m1, SlotOf(p, f), Size(p.ty), v, u);
    }
  }

  lemma WrittenReads(m1: Memory, m2: Memory, a: int, n: nat, v: int, u: int)
    requires Writes(m1, m2, a, n, v) && n <= 8 && 0 <= v < Power(n)
    ensures Reads(m2, a, n, u) <==> u == v
  {
    if Reads(m2, a, n, u) {
      ReadBack(m1, m2, a, n, v, u);
    }
    hide Byte, ByteOf, Wrap;
    forall k: nat | k < n
      ensures ByteOf(v, k) == Byte(m2, a + k)
    {
      AheadBy(a, k);
    }
  }
}
