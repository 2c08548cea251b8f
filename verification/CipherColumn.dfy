// The column mix of section 5.1.3 of FIPS 197 (src/appcert_cipher.cpp:219-226)
// and its inverse, section 5.3.3, over any sum `+` and doubling x that obey
// the laws below: mixing twice adds 4 (a + c) to every byte a, c two rows
// away, and mixing four times changes nothing.
module CipherColumn {
  type Op<!T> = (T, T) -> T
  type Map<!T> = T -> T

  // ---- Laws ----

  predicate Comm<T(==)>(f: Op<T>, a: T, b: T) { f(a, b) == f(b, a) }
  predicate Assoc<T(==)>(f: Op<T>, a: T, b: T, c: T) { f(f(a, b), c) == f(a, f(b, c)) }
  predicate Undo<T(==)>(f: Op<T>, a: T, b: T) { f(f(a, b), b) == a }
  predicate Additive<T(==)>(f: Op<T>, x: Map<T>, a: T, b: T) { x(f(a, b)) == f(x(a), x(b)) }

  ghost predicate Laws<T(!new)>(f: Op<T>, x: Map<T>) {
    && (forall a, b :: Comm(f, a, b))
    && (forall a, b, c :: Assoc(f, a, b, c))
    && (forall a, b :: Undo(f, a, b))
    && (forall a, b :: Additive(f, x, a, b))
  }

  lemma Swap<T(!new)>(f: Op<T>, x: Map<T>, a: T, b: T, c: T, d: T)
    requires Laws(f, x)
    ensures f(f(a, b), f(c, d)) == f(f(a, c), f(b, d))
  {
    assert Assoc(f, f(a, b), c, d) && Assoc(f, a, b, c) && Comm(f, b, c);
    assert Assoc(f, a, c, b) && Assoc(f, f(a, c), b, d);
  }

  lemma Drop<T(!new)>(f: Op<T>, x: Map<T>, a: T, b: T)
    requires Laws(f, x)
    ensures f(a, f(a, b)) == b
  {
    assert Comm(f, a, f(a, b)) && Comm(f, a, b) && Undo(f, b, a);
  }

  lemma Cancel<T(!new)>(f: Op<T>, x: Map<T>, a: T, b: T, c: T)
    requires Laws(f, x)
    ensures f(f(a, b), f(b, c)) == f(a, c)
  {
    assert Assoc(f, a, b, f(b, c));
    Drop(f, x, b, c);
  }

  // Rotating a sum of four.
  lemma Rotate<T(!new)>(f: Op<T>, x: Map<T>, p: T, q: T, r: T, t: T)
    requires Laws(f, x)
    ensures Sum(f, p, q, r, t) == Sum(f, q, r, t, p)
  {
    assert Assoc(f, p, q, r) && Assoc(f, p, f(q, r), t) && Comm(f, p, f(f(q, r), t));
  }

  lemma SumInPairs<T(!new)>(f: Op<T>, x: Map<T>, a: T, b: T, c: T, d: T)
    requires Laws(f, x)
    ensures Sum(f, a, b, c, d) == f(f(a, b), f(c, d)) == f(a, f(b, f(c, d)))
  {
    assert Assoc(f, f(a, b), c, d) && Assoc(f, a, b, f(c, d));
  }

  // ---- Rows ----

  function Sum<T>(f: Op<T>, a: T, b: T, c: T, d: T): T { f(f(f(a, b), c), d) }

  // A mixed byte: the byte, the column's sum, and twice the byte and the next.
  function Row<T>(f: Op<T>, x: Map<T>, a: T, b: T, s: T): T { f(f(a, s), x(f(a, b))) }

  lemma Meet<T(!new)>(f: Op<T>, x: Map<T>, a: T, b: T, c: T)
    requires Laws(f, x)
    ensures x(f(a, c)) == f(x(f(a, b)), x(f(b, c)))
  {
    assert Additive(f, x, f(a, b), f(b, c));
    Cancel(f, x, a, b, c);
  }

  lemma TwoRows<T(!new)>(f: Op<T>, x: Map<T>, a: T, b: T, s: T, p: T, q: T)
    requires Laws(f, x)
    ensures f(f(f(a, s), p), f(f(b, s), q)) == f(f(a, b), f(p, q))
  {
    Swap(f, x, f(a, s), p, f(b, s), q);
    assert Comm(f, b, s);
    Cancel(f, x, a, s, b);
  }

  lemma Collect<T(!new)>(f: Op<T>, x: Map<T>, a: T, s: T, p: T, y: T)
    requires Laws(f, x)
    ensures f(f(f(f(a, s), p), s), f(p, y)) == f(a, y)
  {
    assert Assoc(f, f(a, s), p, s) && Comm(f, p, s) && Assoc(f, f(a, s), s, p) && Undo(f, a, s);
    Cancel(f, x, a, p, y);
  }

  lemma RowTwice<T(!new)>(f: Op<T>, x: Map<T>, a: T, b: T, c: T, s: T)
    requires Laws(f, x)
    ensures Row(f, x, Row(f, x, a, b, s), Row(f, x, b, c, s), s) == f(a, x(x(f(a, c))))
  {
    var p, q, r := x(f(a, b)), x(f(b, c)), x(f(a, c));
    Meet(f, x, a, b, c);
    TwoRows(f, x, a, b, s, p, q);
    assert Additive(f, x, f(a, b), r);
    Collect(f, x, a, s, p, x(r));
  }

  // The sum of a column survives the mix.
  lemma SumStays<T(!new)>(f: Op<T>, x: Map<T>, a: T, b: T, c: T, d: T, s: T)
    requires Laws(f, x) && s == Sum(f, a, b, c, d)
    ensures Sum(f, Row(f, x, a, b, s), Row(f, x, b, c, s), Row(f, x, c, d, s), Row(f, x, d, a, s)) == s
  {
    var p, q, r, t, w := x(f(a, b)), x(f(b, c)), x(f(c, d)), x(f(d, a)), x(f(a, c));
    Meet(f, x, a, b, c);
    Meet(f, x, c, d, a);
    assert Comm(f, a, c);
    TwoRows(f, x, a, b, s, p, q);
    TwoRows(f, x, c, d, s, r, t);
    SumInPairs(f, x, Row(f, x, a, b, s), Row(f, x, b, c, s), Row(f, x, c, d, s), Row(f, x, d, a, s));
    assert Comm(f, f(c, d), w);
    Cancel(f, x, f(a, b), w, f(c, d));
    SumInPairs(f, x, a, b, c, d);
  }

  // ---- The mix ----

  datatype Column<T> = Column(b0: T, b1: T, b2: T, b3: T)

  // Multiplication by the constants the mix and its inverse need.
  datatype Products<!T> = Products(by2: Map<T>, by3: Map<T>, by9: Map<T>, by11: Map<T>, by13: Map<T>, by14: Map<T>)

  ghost predicate AreProducts<T(!new)>(f: Op<T>, x: Map<T>, g: Products<T>) {
    && (forall a :: g.by2(a) == x(a))
    && (forall a :: g.by3(a) == f(a, x(a)))
    && (forall a :: g.by9(a) == f(a, x(x(x(a)))))
    && (forall a :: g.by11(a) == f(f(a, x(a)), x(x(x(a)))))
    && (forall a :: g.by13(a) == f(f(a, x(x(a))), x(x(x(a)))))
    && (forall a :: g.by14(a) == f(f(x(a), x(x(a))), x(x(x(a)))))
  }

  function MixWith<T>(f: Op<T>, g: Products<T>, a: Column<T>): Column<T> {
    Column(Sum(f, g.by2(a.b0), g.by3(a.b1), a.b2, a.b3),
           Sum(f, a.b0, g.by2(a.b1), g.by3(a.b2), a.b3),
           Sum(f, a.b0, a.b1, g.by2(a.b2), g.by3(a.b3)),
           Sum(f, g.by3(a.b0), a.b1, a.b2, g.by2(a.b3)))
  }

  function UnmixWith<T>(f: Op<T>, g: Products<T>, a: Column<T>): Column<T> {
    Column(Sum(f, g.by14(a.b0), g.by11(a.b1), g.by13(a.b2), g.by9(a.b3)),
           Sum(f, g.by9(a.b0), g.by14(a.b1), g.by11(a.b2), g.by13(a.b3)),
           Sum(f, g.by13(a.b0), g.by9(a.b1), g.by14(a.b2), g.by11(a.b3)),
           Sum(f, g.by11(a.b0), g.by13(a.b1), g.by9(a.b2), g.by14(a.b3)))
  }

  function Rows<T>(f: Op<T>, x: Map<T>, a: Column<T>): Column<T> {
    var s := Sum(f, a.b0, a.b1, a.b2, a.b3);
    Column(Row(f, x, a.b0, a.b1, s), Row(f, x, a.b1, a.b2, s), Row(f, x, a.b2, a.b3, s), Row(f, x, a.b3, a.b0, s))
  }

  function Far<T>(f: Op<T>, x: Map<T>, a: T, c: T): T { f(a, x(x(f(a, c)))) }

  function Twice<T>(f: Op<T>, x: Map<T>, a: Column<T>): Column<T> {
    Column(Far(f, x, a.b0, a.b2), Far(f, x, a.b1, a.b3), Far(f, x, a.b2, a.b0), Far(f, x, a.b3, a.b1))
  }

  lemma MixedRow<T(!new)>(f: Op<T>, x: Map<T>, a: T, b: T, c: T, d: T)
    requires Laws(f, x)
    ensures Sum(f, x(a), f(b, x(b)), c, d) == Row(f, x, a, b, Sum(f, a, b, c, d))
  {
    var v, e := f(x(a), x(b)), f(c, d);
    SumInPairs(f, x, a, b, c, d);
    Drop(f, x, a, f(b, e));
    assert Additive(f, x, a, b);
    assert Assoc(f, f(x(a), f(b, x(b))), c, d);
    assert Comm(f, x(a), f(b, x(b))) && Assoc(f, b, x(b), x(a)) && Comm(f, x(b), x(a));
    assert Assoc(f, b, v, e) && Comm(f, v, e) && Assoc(f, b, e, v);
  }

  lemma SumRotates<T(!new)>(f: Op<T>, x: Map<T>, a: T, b: T, c: T, d: T)
    requires Laws(f, x)
    ensures Sum(f, a, b, c, d) == Sum(f, b, c, d, a) == Sum(f, c, d, a, b) == Sum(f, d, a, b, c)
  {
    Rotate(f, x, a, b, c, d);
    Rotate(f, x, b, c, d, a);
    Rotate(f, x, c, d, a, b);
  }

  lemma MixIsRows<T(!new)>(f: Op<T>, x: Map<T>, g: Products<T>, a: Column<T>)
    requires Laws(f, x) && AreProducts(f, x, g)
    ensures MixWith(f, g, a) == Rows(f, x, a)
  {
    SumRotates(f, x, a.b0, a.b1, a.b2, a.b3);
    MixedRow(f, x, a.b0, a.b1, a.b2, a.b3);
    MixedRow(f, x, a.b1, a.b2, a.b3, a.b0);
    MixedRow(f, x, a.b2, a.b3, a.b0, a.b1);
    MixedRow(f, x, a.b3, a.b0, a.b1, a.b2);
    SumRotates(f, x, a.b0, g.by2(a.b1), g.by3(a.b2), a.b3);
    SumRotates(f, x, a.b0, a.b1, g.by2(a.b2), g.by3(a.b3));
    SumRotates(f, x, g.by3(a.b0), a.b1, a.b2, g.by2(a.b3));
  }

  lemma RowsTwice<T(!new)>(f: Op<T>, x: Map<T>, a: Column<T>)
    requires Laws(f, x)
    ensures Rows(f, x, Rows(f, x, a)) == Twice(f, x, a)
  {
    var s := Sum(f, a.b0, a.b1, a.b2, a.b3);
    SumStays(f, x, a.b0, a.b1, a.b2, a.b3, s);
    RowTwice(f, x, a.b0, a.b1, a.b2, s);
    RowTwice(f, x, a.b1, a.b2, a.b3, s);
    RowTwice(f, x, a.b2, a.b3, a.b0, s);
    RowTwice(f, x, a.b3, a.b0, a.b1, s);
  }

  lemma FarTwice<T(!new)>(f: Op<T>, x: Map<T>, a: T, c: T)
    requires Laws(f, x)
    ensures Far(f, x, Far(f, x, a, c), Far(f, x, c, a)) == a
  {
    var u := x(x(f(a, c)));
    assert Comm(f, a, c) && Comm(f, c, u);
    Cancel(f, x, a, u, c);
    assert Undo(f, a, u);
  }

  lemma TwiceTwice<T(!new)>(f: Op<T>, x: Map<T>, a: Column<T>)
    requires Laws(f, x)
    ensures Twice(f, x, Twice(f, x, a)) == a
  {
    FarTwice(f, x, a.b0, a.b2);
    FarTwice(f, x, a.b1, a.b3);
    FarTwice(f, x, a.b2, a.b0);
    FarTwice(f, x, a.b3, a.b1);
  }

  // ---- The inverse ----

  // 14 a + 11 b + 13 c + 9 d, gathered by powers of x.
  lemma Gathered<T(!new)>(f: Op<T>, x: Map<T>, a: T, b: T, c: T, d: T, x2a: T, x2c: T, z: T, za: T, zb: T, zc: T, zd: T)
    requires Laws(f, x) && z == f(f(za, zb), f(zc, zd))
    ensures Sum(f, f(f(x(a), x2a), za), f(f(b, x(b)), zb), f(f(c, x2c), zc), f(d, zd)) ==
            f(f(f(b, f(c, d)), f(x(a), x(b))), f(f(x2a, x2c), z))
  {
    var low1, low2 := f(f(x(a), x2a), f(b, x(b))), f(f(c, x2c), d);
    SumInPairs(f, x, f(f(x(a), x2a), za), f(f(b, x(b)), zb), f(f(c, x2c), zc), f(d, zd));
    Swap(f, x, f(x(a), x2a), za, f(b, x(b)), zb);
    Swap(f, x, f(c, x2c), zc, d, zd);
    Swap(f, x, low1, f(za, zb), low2, f(zc, zd));
    GatheredLow(f, x, a, b, c, d, x2a, x2c, z);
  }

  lemma GatheredLow<T(!new)>(f: Op<T>, x: Map<T>, a: T, b: T, c: T, d: T, x2a: T, x2c: T, z: T)
    requires Laws(f, x)
    ensures f(f(f(f(x(a), x2a), f(b, x(b))), f(f(c, x2c), d)), z) ==
            f(f(f(b, f(c, d)), f(x(a), x(b))), f(f(x2a, x2c), z))
  {
    var v, k, e := f(x(a), x(b)), f(x2a, x2c), f(b, f(c, d));
    assert Comm(f, b, x(b));
    Swap(f, x, x(a), x2a, x(b), b);
    assert Comm(f, c, x2c) && Assoc(f, x2c, c, d);
    assert Assoc(f, v, f(x2a, b), f(x2c, f(c, d)));
    Swap(f, x, x2a, b, x2c, f(c, d));
    assert Comm(f, k, e) && Assoc(f, v, e, k) && Comm(f, v, e) && Assoc(f, f(e, v), k, z);
  }

  lemma RowsFar<T(!new)>(f: Op<T>, x: Map<T>, a: T, b: T, c: T, d: T, s: T)
    requires Laws(f, x) && s == Sum(f, a, b, c, d)
    ensures Far(f, x, Row(f, x, a, b, s), Row(f, x, c, d, s)) ==
            f(f(f(b, f(c, d)), f(x(a), x(b))), f(f(x(x(a)), x(x(c))), x(x(x(s)))))
  {
    var p, r := x(f(a, b)), x(f(c, d));
    SumInPairs(f, x, a, b, c, d);
    Drop(f, x, a, f(b, f(c, d)));
    TwoRows(f, x, a, c, s, p, r);
    assert Additive(f, x, a, b) && Additive(f, x, f(a, b), f(c, d));
    FarOfSum(f, x, a, c, s);
  }

  lemma UnmixedRow<T(!new)>(f: Op<T>, x: Map<T>, g: Products<T>, a: T, b: T, c: T, d: T, s: T)
    requires Laws(f, x) && AreProducts(f, x, g) && s == Sum(f, a, b, c, d)
    ensures Sum(f, g.by14(a), g.by11(b), g.by13(c), g.by9(d)) ==
            Far(f, x, Row(f, x, a, b, s), Row(f, x, c, d, s))
  {
    hide Far, Row;
    SumInPairs(f, x, a, b, c, d);
    RowsFar(f, x, a, b, c, d, s);
    CubeOfSum(f, x, a, b, c, d, s);
    Gathered(f, x, a, b, c, d, x(x(a)), x(x(c)), x(x(x(s))), x(x(x(a))), x(x(x(b))), x(x(x(c))), x(x(x(d))));
  }

  lemma FarOfSum<T(!new)>(f: Op<T>, x: Map<T>, a: T, c: T, s: T)
    requires Laws(f, x)
    ensures x(x(f(f(a, c), x(s)))) == f(f(x(x(a)), x(x(c))), x(x(x(s))))
  {
    assert Additive(f, x, f(a, c), x(s)) && Additive(f, x, x(f(a, c)), x(x(s)));
    assert Additive(f, x, a, c) && Additive(f, x, x(a), x(c));
  }

  lemma CubeOfSum<T(!new)>(f: Op<T>, x: Map<T>, a: T, b: T, c: T, d: T, s: T)
    requires Laws(f, x) && s == f(f(a, b), f(c, d))
    ensures x(x(x(s))) == f(f(x(x(x(a))), x(x(x(b)))), f(x(x(x(c))), x(x(x(d)))))
  {
    Thrice(f, x, f(a, b), f(c, d));
    Thrice(f, x, a, b);
    Thrice(f, x, c, d);
  }

  lemma Thrice<T(!new)>(f: Op<T>, x: Map<T>, a: T, b: T)
    requires Laws(f, x)
    ensures x(x(x(f(a, b)))) == f(x(x(x(a))), x(x(x(b))))
  {
    assert Additive(f, x, a, b) && Additive(f, x, x(a), x(b)) && Additive(f, x, x(x(a)), x(x(b)));
  }

  lemma UnmixIsThreeMixes<T(!new)>(f: Op<T>, x: Map<T>, g: Products<T>, a: Column<T>)
    requires Laws(f, x) && AreProducts(f, x, g)
    ensures UnmixWith(f, g, a) == Twice(f, x, Rows(f, x, a))
  {
    var s := Sum(f, a.b0, a.b1, a.b2, a.b3);
    SumRotates(f, x, a.b0, a.b1, a.b2, a.b3);
    UnmixedRow(f, x, g, a.b0, a.b1, a.b2, a.b3, s);
    UnmixedRow(f, x, g, a.b1, a.b2, a.b3, a.b0, s);
    UnmixedRow(f, x, g, a.b2, a.b3, a.b0, a.b1, s);
    UnmixedRow(f, x, g, a.b3, a.b0, a.b1, a.b2, s);
    SumRotates(f, x, g.by9(a.b0), g.by14(a.b1), g.by11(a.b2), g.by13(a.b3));
    SumRotates(f, x, g.by13(a.b0), g.by9(a.b1), g.by14(a.b2), g.by11(a.b3));
    SumRotates(f, x, g.by11(a.b0), g.by13(a.b1), g.by9(a.b2), g.by14(a.b3));
  }

  lemma MixUnmix<T(!new)>(f: Op<T>, x: Map<T>, g: Products<T>, a: Column<T>)
    requires Laws(f, x) && AreProducts(f, x, g)
    ensures UnmixWith(f, g, MixWith(f, g, a)) == a
    ensures MixWith(f, g, UnmixWith(f, g, a)) == a
  {
    var m := Rows(f, x, a);
    MixIsRows(f, x, g, a);
    UnmixIsThreeMixes(f, x, g, m);
    RowsTwice(f, x, a);
    TwiceTwice(f, x, a);
    UnmixIsThreeMixes(f, x, g, a);
    RowsTwice(f, x, m);
    var u := Twice(f, x, m);
    MixIsRows(f, x, g, u);
    RowsTwice(f, x, Rows(f, x, m));
    assert u == Rows(f, x, Rows(f, x, m));
    assert Rows(f, x, m) == Twice(f, x, a);
    assert Rows(f, x, u) == Twice(f, x, Rows(f, x, m));
  }
}
