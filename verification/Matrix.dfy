/** 4x4 matrices, changed in place, over real numbers; points are rows, and are transformed from the right. */
module Matrix {
  datatype Row = Row(x: real, y: real, z: real, w: real) {
    function Plus(r: Row): Row { Row(x + r.x, y + r.y, z + r.z, w + r.w) }

    function Times(k: real): Row { Row(x * k, y * k, z * k, w * k) }
  }

  datatype Mat = Mat(x: Row, y: Row, z: Row, w: Row)

  /** The row that combines the rows of `m` by the coefficients `r`. */
  function Combine(r: Row, m: Mat): Row {
    m.x.Times(r.x).Plus(m.y.Times(r.y)).Plus(m.z.Times(r.z)).Plus(m.w.Times(r.w))
  }

  function Mul(b: Mat, a: Mat): Mat { Mat(Combine(b.x, a), Combine(b.y, a), Combine(b.z, a), Combine(b.w, a)) }

  const IDENTITY := Scale(1.0, 1.0, 1.0)

  function Scale(x: real, y: real, z: real): Mat {
    Mat(Row(x, 0.0, 0.0, 0.0), Row(0.0, y, 0.0, 0.0), Row(0.0, 0.0, z, 0.0), Row(0.0, 0.0, 0.0, 1.0))
  }

  function Translation(x: real, y: real, z: real): Mat {
    Mat(Row(1.0, 0.0, 0.0, 0.0), Row(0.0, 1.0, 0.0, 0.0), Row(0.0, 0.0, 1.0, 0.0), Row(x, y, z, 1.0))
  }

  function RotationX(s: real, c: real): Mat {
    Mat(Row(1.0, 0.0, 0.0, 0.0), Row(0.0, c, s, 0.0), Row(0.0, -s, c, 0.0), Row(0.0, 0.0, 0.0, 1.0))
  }

  function RotationY(s: real, c: real): Mat {
    Mat(Row(c, 0.0, -s, 0.0), Row(0.0, 1.0, 0.0, 0.0), Row(s, 0.0, c, 0.0), Row(0.0, 0.0, 0.0, 1.0))
  }

  function RotationZ(s: real, c: real): Mat {
    Mat(Row(c, s, 0.0, 0.0), Row(-s, c, 0.0, 0.0), Row(0.0, 0.0, 1.0, 0.0), Row(0.0, 0.0, 0.0, 1.0))
  }

  datatype Point = Point(x: real, y: real, z: real)

  /** Of the transformed row, the last coordinate is dropped. */
  function Transform(p: Point, m: Mat): Point {
    var r := Combine(Row(p.x, p.y, p.z, 1.0), m);
    Point(r.x, r.y, r.z)
  }

  predicate Affine(m: Mat) { m.x.w == m.y.w == m.z.w == 0.0 && m.w.w == 1.0 }

  /* ----- algebra ----- */

  lemma TimesParts(r: Row, k: real)
    ensures r.Times(k) == Row(r.x * k, r.y * k, r.z * k, r.w * k)
  {
  }

  lemma TimesRow(x: real, y: real, z: real, w: real, k: real)
    ensures Row(x, y, z, w).Times(k) == Row(x * k, y * k, z * k, w * k)
  {
  }

  lemma PlusParts(a: Row, b: Row)
    ensures a.Plus(b) == Row(a.x + b.x, a.y + b.y, a.z + b.z, a.w + b.w)
  {
  }

  lemma PlusRow(x: real, y: real, z: real, w: real, x': real, y': real, z': real, w': real)
    ensures Row(x, y, z, w).Plus(Row(x', y', z', w')) == Row(x + x', y + y', z + z', w + w')
  {
  }

  lemma RealPlus(x: real, y: real, k: real)
    ensures (x + y) * k == x * k + y * k
  {
  }

  lemma TimesPlus(a: Row, b: Row, k: real)
    ensures a.Plus(b).Times(k) == a.Times(k).Plus(b.Times(k))
  {
    hide Row.Plus, Row.Times;
    PlusParts(a, b);
    TimesRow(a.x + b.x, a.y + b.y, a.z + b.z, a.w + b.w, k);
    TimesParts(a, k);
    TimesParts(b, k);
    PlusRow(a.x * k, a.y * k, a.z * k, a.w * k, b.x * k, b.y * k, b.z * k, b.w * k);
    RealPlus(a.x, b.x, k);
    RealPlus(a.y, b.y, k);
    RealPlus(a.z, b.z, k);
    RealPlus(a.w, b.w, k);
  }

  lemma RowParts(r: Row)
    ensures r == Row(r.x, r.y, r.z, r.w)
  {
  }

  lemma TimesAdd(a: Row, k: real, l: real)
    ensures a.Times(k + l) == a.Times(k).Plus(a.Times(l))
  {
  }

  lemma RealAssociates(x: real, k: real, l: real)
    ensures x * (k * l) == x * k * l
  {
  }

  lemma RealTimes(x: real, k: real, l: real)
    ensures x * (k * l) == x * l * k == x * k * l
  {
    RealAssociates(x, k, l);
    RealAssociates(x, l, k);
    assert k * l == l * k;
  }

  lemma TimesTwice(a: Row, k: real, l: real)
    ensures a.Times(l).Times(k) == Row(a.x * (k * l), a.y * (k * l), a.z * (k * l), a.w * (k * l))
  {
    hide Row.Times;
    TimesParts(a, l);
    TimesRow(a.x * l, a.y * l, a.z * l, a.w * l, k);
    RealTimes(a.x, k, l);
    RealTimes(a.y, k, l);
    RealTimes(a.z, k, l);
    RealTimes(a.w, k, l);
  }

  lemma TimesTimes(a: Row, k: real, l: real)
    ensures a.Times(k * l) == a.Times(l).Times(k) == a.Times(k).Times(l)
  {
    hide Row.Times;
    TimesParts(a, k * l);
    TimesTwice(a, k, l);
    TimesTwice(a, l, k);
    assert k * l == l * k;
  }

  lemma Shuffle(a: Row, b: Row, c: Row, d: Row, e: Row, f: Row, g: Row, h: Row)
    ensures a.Plus(b).Plus(c).Plus(d).Plus(e.Plus(f).Plus(g).Plus(h))
         == a.Plus(e).Plus(b.Plus(f)).Plus(c.Plus(g)).Plus(d.Plus(h))
  {
  }

  lemma CombinePlus(r: Row, q: Row, m: Mat)
    ensures Combine(r.Plus(q), m) == Combine(r, m).Plus(Combine(q, m))
  {
    TimesAdd(m.x, r.x, q.x);
    TimesAdd(m.y, r.y, q.y);
    TimesAdd(m.z, r.z, q.z);
    TimesAdd(m.w, r.w, q.w);
    Shuffle(m.x.Times(r.x), m.y.Times(r.y), m.z.Times(r.z), m.w.Times(r.w),
            m.x.Times(q.x), m.y.Times(q.y), m.z.Times(q.z), m.w.Times(q.w));
    assert r.Plus(q) == Row(r.x + q.x, r.y + q.y, r.z + q.z, r.w + q.w);
    hide Row.Plus, Row.Times;
  }

  lemma CombineTimes(r: Row, k: real, m: Mat)
    ensures Combine(r.Times(k), m) == Combine(r, m).Times(k)
  {
    hide Row.Plus, Row.Times;
    TimesTimes(m.x, r.x, k);
    TimesTimes(m.y, r.y, k);
    TimesTimes(m.z, r.z, k);
    TimesTimes(m.w, r.w, k);
    var a, b, c, d := m.x.Times(r.x), m.y.Times(r.y), m.z.Times(r.z), m.w.Times(r.w);
    TimesPlus(a.Plus(b).Plus(c), d, k);
    TimesPlus(a.Plus(b), c, k);
    TimesPlus(a, b, k);
    TimesParts(r, k);
  }

  /** Combining twice is combining by the product. */
  lemma CombineMul(r: Row, b: Mat, a: Mat)
    ensures Combine(Combine(r, b), a) == Combine(r, Mul(b, a))
  {
    var i, j, k, l := b.x.Times(r.x), b.y.Times(r.y), b.z.Times(r.z), b.w.Times(r.w);
    CombinePlus(i.Plus(j).Plus(k), l, a);
    CombinePlus(i.Plus(j), k, a);
    CombinePlus(i, j, a);
    CombineTimes(b.x, r.x, a);
    CombineTimes(b.y, r.y, a);
    CombineTimes(b.z, r.z, a);
    CombineTimes(b.w, r.w, a);
    assert Combine(r, b) == i.Plus(j).Plus(k).Plus(l);
    var m := Mul(b, a);
    assert Combine(r, m) == m.x.Times(r.x).Plus(m.y.Times(r.y)).Plus(m.z.Times(r.z)).Plus(m.w.Times(r.w));
    hide Row.Plus, Row.Times, Combine;
  }

  lemma MulAssociative(c: Mat, b: Mat, a: Mat)
    ensures Mul(Mul(c, b), a) == Mul(c, Mul(b, a))
  {
    CombineMul(c.x, b, a);
    CombineMul(c.y, b, a);
    CombineMul(c.z, b, a);
    CombineMul(c.w, b, a);
    hide Combine;
  }

  const ZERO := Row(0.0, 0.0, 0.0, 0.0)

  lemma Units(r: Row)
    ensures r.Times(0.0) == ZERO && r.Times(1.0) == r && r.Plus(ZERO) == r && ZERO.Plus(r) == r
  {
  }

  lemma CombineXY(m: Mat, k: real, l: real)
    ensures Combine(Row(k, l, 0.0, 0.0), m) == m.x.Times(k).Plus(m.y.Times(l))
  {
    Units(m.z);
    Units(m.w);
    Units(m.x.Times(k).Plus(m.y.Times(l)));
    hide Row.Plus, Row.Times;
  }

  lemma CombineXZ(m: Mat, k: real, l: real)
    ensures Combine(Row(k, 0.0, l, 0.0), m) == m.x.Times(k).Plus(m.z.Times(l))
  {
    Units(m.y);
    Units(m.w);
    Units(m.x.Times(k));
    Units(m.x.Times(k).Plus(m.z.Times(l)));
    hide Row.Plus, Row.Times;
  }

  lemma CombineYZ(m: Mat, k: real, l: real)
    ensures Combine(Row(0.0, k, l, 0.0), m) == m.y.Times(k).Plus(m.z.Times(l))
  {
    Units(m.x);
    Units(m.w);
    Units(m.y.Times(k));
    Units(m.y.Times(k).Plus(m.z.Times(l)));
    hide Row.Plus, Row.Times;
  }

  lemma CombineUnit(m: Mat)
    ensures Combine(Row(1.0, 0.0, 0.0, 0.0), m) == m.x && Combine(Row(0.0, 1.0, 0.0, 0.0), m) == m.y
    ensures Combine(Row(0.0, 0.0, 1.0, 0.0), m) == m.z && Combine(Row(0.0, 0.0, 0.0, 1.0), m) == m.w
  {
    CombineXY(m, 1.0, 0.0);
    CombineXY(m, 0.0, 1.0);
    CombineYZ(m, 0.0, 1.0);
    Units(m.x);
    Units(m.y);
    Units(m.z);
    Units(m.w);
    Units(ZERO);
    hide Row.Plus, Row.Times;
  }

  lemma CombineIdentity(r: Row)
    ensures Combine(r, IDENTITY) == r
  {
  }

  lemma MulIdentity(m: Mat)
    ensures Mul(IDENTITY, m) == m == Mul(m, IDENTITY)
  {
    CombineUnit(m);
    CombineIdentity(m.x);
    CombineIdentity(m.y);
    CombineIdentity(m.z);
    CombineIdentity(m.w);
    hide Combine;
  }

  lemma MulAffine(b: Mat, a: Mat)
    requires Affine(a) && Affine(b)
    ensures Affine(Mul(b, a))
  {
  }

  /** The last coordinate that transforming drops. */
  function Weight(p: Point, m: Mat): real { Combine(Row(p.x, p.y, p.z, 1.0), m).w }

  lemma WeightOne(p: Point, b: Mat, a: Mat)
    requires Weight(p, b) == 1.0
    ensures Transform(p, Mul(b, a)) == Transform(Transform(p, b), a)
  {
    CombineMul(Row(p.x, p.y, p.z, 1.0), b, a);
    hide Combine, Mul;
  }

  /** Two transformations, one after the other. */
  ghost predicate Composes(b: Mat) {
    forall p: Point, a: Mat :: Transform(p, Mul(b, a)) == Transform(Transform(p, b), a)
  }

  lemma AffineWeight(p: Point, m: Mat)
    requires Affine(m)
    ensures Weight(p, m) == 1.0
  {
  }

  lemma ComposedWeight(p: Point, b: Mat)
    requires Composes(b)
    ensures Weight(p, b) == 1.0
  {
    hide Mul;
    var a := Translation(1.0, 0.0, 0.0);
    var r, q := Combine(Row(p.x, p.y, p.z, 1.0), b), Transform(p, b);
    CombineMul(Row(p.x, p.y, p.z, 1.0), b, a);
    assert Transform(p, Mul(b, a)) == Transform(q, a);
    assert Combine(r, a).x == r.x + r.w;
    assert Transform(q, a).x == q.x + 1.0;
  }

  /** A unit row, and the same row for a point. */
  lemma UnitWeight(m: Mat, unit: Row, row: Row)
    requires unit.Plus(Row(0.0, 0.0, 0.0, 1.0)) == row
    ensures Combine(row, m).w == Combine(unit, m).w + m.w.w
  {
    hide Combine;
    CombineUnit(m);
    CombinePlus(unit, Row(0.0, 0.0, 0.0, 1.0), m);
  }

  lemma ComposedColumn(b: Mat, unit: Row, p: Point)
    requires Composes(b) && unit.Plus(Row(0.0, 0.0, 0.0, 1.0)) == Row(p.x, p.y, p.z, 1.0)
    ensures Combine(unit, b).w + b.w.w == 1.0
  {
    hide Combine, Composes;
    ComposedWeight(p, b);
    UnitWeight(b, unit, Row(p.x, p.y, p.z, 1.0));
  }

  lemma ComposedAffine(b: Mat)
    requires Composes(b)
    ensures Affine(b)
  {
    hide Combine, Composes;
    CombineUnit(b);
    ComposedColumn(b, ZERO, Point(0.0, 0.0, 0.0));
    ComposedColumn(b, Row(1.0, 0.0, 0.0, 0.0), Point(1.0, 0.0, 0.0));
    ComposedColumn(b, Row(0.0, 1.0, 0.0, 0.0), Point(0.0, 1.0, 0.0));
    ComposedColumn(b, Row(0.0, 0.0, 1.0, 0.0), Point(0.0, 0.0, 1.0));
    CombineZero(b);
  }

  lemma CombineZero(m: Mat)
    ensures Combine(ZERO, m) == ZERO
  {
    CombineXY(m, 0.0, 0.0);
    Units(m.x);
    Units(m.y);
    Units(ZERO);
    hide Row.Plus, Row.Times;
  }

  /** Transforming by a product is transforming twice, for all points and all second matrices, exactly if the first is affine. */
  lemma ProductTransforms(b: Mat)
    ensures Composes(b) <==> Affine(b)
  {
    hide Transform, Weight, Mul;
    if Affine(b) {
      forall p: Point, a: Mat ensures Transform(p, Mul(b, a)) == Transform(Transform(p, b), a) {
        AffineWeight(p, b);
        WeightOne(p, b, a);
      }
    }
    if Composes(b) {
      ComposedAffine(b);
    }
  }

  /** Turning back undoes a turn, exactly if the sine and the cosine belong to one angle. */
  lemma TurnBackX(s: real, c: real)
    ensures Mul(RotationX(s, c), RotationX(-s, c)) == IDENTITY <==> s * s + c * c == 1.0
  {
    var m := RotationX(-s, c);
    CombineUnit(m);
    CombineYZ(m, c, s);
    CombineYZ(m, -s, c);
    hide Combine;
  }

  lemma TurnBackY(s: real, c: real)
    ensures Mul(RotationY(s, c), RotationY(-s, c)) == IDENTITY <==> s * s + c * c == 1.0
  {
    var m := RotationY(-s, c);
    CombineUnit(m);
    CombineXZ(m, c, -s);
    CombineXZ(m, s, c);
    hide Combine;
  }

  lemma TurnBackZ(s: real, c: real)
    ensures Mul(RotationZ(s, c), RotationZ(-s, c)) == IDENTITY <==> s * s + c * c == 1.0
  {
    var m := RotationZ(-s, c);
    CombineUnit(m);
    CombineXY(m, c, s);
    CombineXY(m, -s, c);
    hide Combine;
  }
}
