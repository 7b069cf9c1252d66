/** The routines that change a matrix or a point in place. */
module MatrixInPlace {
  import opened Matrix

  predicate IsMtxF(m: array2<real>) { m.Length0 == m.Length1 == 4 }

  ghost function RowOf(m: array2<real>, i: nat): Row
    requires IsMtxF(m) && i < 4
    reads m
  {
    Row(m[i, 0], m[i, 1], m[i, 2], m[i, 3])
  }

  ghost function Value(m: array2<real>): Mat
    requires IsMtxF(m)
    reads m
  {
    Mat(RowOf(m, 0), RowOf(m, 1), RowOf(m, 2), RowOf(m, 3))
  }

  function PlusTurn(a: real, b: real, s: real, c: real): real { a * c + b * s }

  function MinusTurn(a: real, b: real, s: real, c: real): real { a * c - b * s }

  function Dot(r: Row, x: real, y: real, z: real, w: real): real { r.x * x + r.y * y + r.z * z + r.w * w }

  /** A row of a product, entry by entry. */
  lemma CombineDots(r: Row, m: Mat)
    ensures Combine(r, m) == Row(Dot(r, m.x.x, m.y.x, m.z.x, m.w.x), Dot(r, m.x.y, m.y.y, m.z.y, m.w.y),
                                 Dot(r, m.x.z, m.y.z, m.z.z, m.w.z), Dot(r, m.x.w, m.y.w, m.z.w, m.w.w))
  {
  }

  lemma TurnedEntry(a: real, b: real, s: real, c: real)
    ensures a * -s + b * c == MinusTurn(b, a, s, c)
  {
  }

  /** Two rows that turn towards each other. */
  lemma TurnedFirst(a: Row, b: Row, s: real, c: real)
    ensures a.Times(c).Plus(b.Times(s)) ==
      Row(PlusTurn(a.x, b.x, s, c), PlusTurn(a.y, b.y, s, c), PlusTurn(a.z, b.z, s, c), PlusTurn(a.w, b.w, s, c))
  {
  }

  lemma TurnedSecond(a: Row, b: Row, s: real, c: real)
    ensures a.Times(-s).Plus(b.Times(c)) ==
      Row(MinusTurn(b.x, a.x, s, c), MinusTurn(b.y, a.y, s, c), MinusTurn(b.z, a.z, s, c), MinusTurn(b.w, a.w, s, c))
  {
    hide MinusTurn;
    TurnedEntry(a.x, b.x, s, c);
    TurnedEntry(a.y, b.y, s, c);
    TurnedEntry(a.z, b.z, s, c);
    TurnedEntry(a.w, b.w, s, c);
  }

  /* ----- what elementary matrices do on the left and on the right ----- */

  lemma CombineOne(m: Mat, k: real)
    ensures Combine(Row(k, 0.0, 0.0, 0.0), m) == m.x.Times(k) && Combine(Row(0.0, k, 0.0, 0.0), m) == m.y.Times(k)
    ensures Combine(Row(0.0, 0.0, k, 0.0), m) == m.z.Times(k)
  {
    CombineXY(m, k, 0.0);
    CombineXY(m, 0.0, k);
    CombineYZ(m, 0.0, k);
    Units(m.x);
    Units(m.y);
    Units(m.z);
    Units(m.x.Times(k));
    Units(m.y.Times(k));
    Units(m.z.Times(k));
    hide Row.Plus, Row.Times, Combine;
  }

  lemma ScaleLeft(m: Mat, x: real, y: real, z: real)
    ensures Mul(Scale(x, y, z), m) == Mat(m.x.Times(x), m.y.Times(y), m.z.Times(z), m.w)
  {
    CombineOne(m, x);
    CombineOne(m, y);
    CombineOne(m, z);
    CombineUnit(m);
    hide Row.Times, Combine;
  }

  lemma RotationLeft(m: Mat, s: real, c: real)
    ensures Mul(RotationX(s, c), m) == Mat(m.x, m.y.Times(c).Plus(m.z.Times(s)), m.y.Times(-s).Plus(m.z.Times(c)), m.w)
    ensures Mul(RotationY(s, c), m) == Mat(m.x.Times(c).Plus(m.z.Times(-s)), m.y, m.x.Times(s).Plus(m.z.Times(c)), m.w)
    ensures Mul(RotationZ(s, c), m) == Mat(m.x.Times(c).Plus(m.y.Times(s)), m.x.Times(-s).Plus(m.y.Times(c)), m.z, m.w)
  {
    CombineUnit(m);
    CombineYZ(m, c, s);
    CombineYZ(m, -s, c);
    CombineXZ(m, c, -s);
    CombineXZ(m, s, c);
    CombineXY(m, c, s);
    CombineXY(m, -s, c);
    hide Row.Times, Row.Plus, Combine;
  }

  lemma TranslationLeft(m: Mat, x: real, y: real, z: real)
    ensures Mul(Translation(x, y, z), m) ==
      Mat(m.x, m.y, m.z, m.x.Times(x).Plus(m.y.Times(y)).Plus(m.z.Times(z)).Plus(m.w))
  {
    CombineUnit(m);
    Units(m.w);
    hide Row.Times, Row.Plus;
  }

  lemma ScaleRight(r: Row, x: real, y: real, z: real)
    ensures Combine(r, Scale(x, y, z)) == Row(r.x * x, r.y * y, r.z * z, r.w)
  {
  }

  lemma TranslationRight(r: Row, x: real, y: real, z: real)
    ensures Combine(r, Translation(x, y, z)) == Row(r.x + r.w * x, r.y + r.w * y, r.z + r.w * z, r.w)
  {
  }

  function TurnedX(r: Row, s: real, c: real): Row {
    Row(r.x, MinusTurn(r.y, r.z, s, c), PlusTurn(r.z, r.y, s, c), r.w)
  }

  function TurnedY(r: Row, s: real, c: real): Row {
    Row(PlusTurn(r.x, r.z, s, c), r.y, MinusTurn(r.z, r.x, s, c), r.w)
  }

  function TurnedZ(r: Row, s: real, c: real): Row {
    Row(MinusTurn(r.x, r.y, s, c), PlusTurn(r.y, r.x, s, c), r.z, r.w)
  }

  lemma RotationRight(r: Row, s: real, c: real)
    ensures Combine(r, RotationX(s, c)) == TurnedX(r, s, c)
    ensures Combine(r, RotationY(s, c)) == TurnedY(r, s, c)
    ensures Combine(r, RotationZ(s, c)) == TurnedZ(r, s, c)
  {
  }

  lemma AllRight(m: Mat, s: real, c: real)
    ensures Mul(m, RotationX(s, c)) == Mat(TurnedX(m.x, s, c), TurnedX(m.y, s, c), TurnedX(m.z, s, c), TurnedX(m.w, s, c))
    ensures Mul(m, RotationY(s, c)) == Mat(TurnedY(m.x, s, c), TurnedY(m.y, s, c), TurnedY(m.z, s, c), TurnedY(m.w, s, c))
    ensures Mul(m, RotationZ(s, c)) == Mat(TurnedZ(m.x, s, c), TurnedZ(m.y, s, c), TurnedZ(m.z, s, c), TurnedZ(m.w, s, c))
  {
    hide Combine, RotationX, RotationY, RotationZ, TurnedX, TurnedY, TurnedZ;
    RotationRight(m.x, s, c);
    RotationRight(m.y, s, c);
    RotationRight(m.z, s, c);
    RotationRight(m.w, s, c);
  }

  /* ----- rows ----- */

  method TimesRow(m: array2<real>, i: nat, k: real)
    requires IsMtxF(m) && i < 4
    modifies m
    ensures RowOf(m, i) == old(RowOf(m, i)).Times(k)
    ensures forall j: nat :: j < 4 && j != i ==> RowOf(m, j) == old(RowOf(m, j))
  {
    m[i, 0] := m[i, 0] * k;
    m[i, 1] := m[i, 1] * k;
    m[i, 2] := m[i, 2] * k;
    m[i, 3] := m[i, 3] * k;
  }

  /** Scales by rows; a factor of 1 is passed over. */
  method ScaleRows(m: array2<real>, x: real, y: real, z: real)
    requires IsMtxF(m)
    modifies m
    ensures Value(m) == Mul(Scale(x, y, z), old(Value(m)))
  {
    hide Mul, Row.Times, Scale;
    ghost var a := Value(m);
    ScaleLeft(a, x, y, z);
    Units(a.x);
    Units(a.y);
    Units(a.z);
    if x != 1.0 {
      TimesRow(m, 0, x);
    }
    if y != 1.0 {
      TimesRow(m, 1, y);
    }
    if z != 1.0 {
      TimesRow(m, 2, z);
    }
  }

  /** Two entries of a column turn towards each other. */
  method TurnPair(m: array2<real>, i: nat, j: nat, k: nat, s: real, c: real)
    requires IsMtxF(m) && i < 4 && j < 4 && i != j && k < 4
    modifies m
    ensures m[i, k] == PlusTurn(old(m[i, k]), old(m[j, k]), s, c) && m[j, k] == MinusTurn(old(m[j, k]), old(m[i, k]), s, c)
    ensures forall p: nat, q: nat :: p < 4 && q < 4 && !(p in {i, j} && q == k) ==> m[p, q] == old(m[p, q])
  {
    var a, b := m[i, k], m[j, k];
    m[i, k] := PlusTurn(a, b, s, c);
    m[j, k] := MinusTurn(b, a, s, c);
  }

  method TurnRows(m: array2<real>, i: nat, j: nat, s: real, c: real)
    requires IsMtxF(m) && i < 4 && j < 4 && i != j
    modifies m
    ensures RowOf(m, i) == old(RowOf(m, i)).Times(c).Plus(old(RowOf(m, j)).Times(s))
    ensures RowOf(m, j) == old(RowOf(m, i)).Times(-s).Plus(old(RowOf(m, j)).Times(c))
    ensures forall k: nat :: k < 4 && k != i && k != j ==> RowOf(m, k) == old(RowOf(m, k))
  {
    hide PlusTurn, MinusTurn, Row.Times, Row.Plus;
    TurnedFirst(RowOf(m, i), RowOf(m, j), s, c);
    TurnedSecond(RowOf(m, i), RowOf(m, j), s, c);
    TurnPair(m, i, j, 0, s, c);
    TurnPair(m, i, j, 1, s, c);
    TurnPair(m, i, j, 2, s, c);
    TurnPair(m, i, j, 3, s, c);
  }

  method RotateRowsX(m: array2<real>, s: real, c: real)
    requires IsMtxF(m)
    modifies m
    ensures Value(m) == Mul(RotationX(s, c), old(Value(m)))
  {
    hide Mul, Row.Times, Row.Plus, RotationX, RowOf;
    RotationLeft(Value(m), s, c);
    TurnRows(m, 1, 2, s, c);
  }

  method RotateRowsY(m: array2<real>, s: real, c: real)
    requires IsMtxF(m)
    modifies m
    ensures Value(m) == Mul(RotationY(s, c), old(Value(m)))
  {
    hide Mul, Row.Times, Row.Plus, RotationY, RowOf;
    RotationLeft(Value(m), s, c);
    PlusCommutes(Value(m).z.Times(c), Value(m).x.Times(s));
    PlusCommutes(Value(m).z.Times(-s), Value(m).x.Times(c));
    TurnRows(m, 2, 0, s, c);
  }

  lemma PlusCommutes(a: Row, b: Row)
    ensures a.Plus(b) == b.Plus(a)
  {
  }

  method RotateRowsZ(m: array2<real>, s: real, c: real)
    requires IsMtxF(m)
    modifies m
    ensures Value(m) == Mul(RotationZ(s, c), old(Value(m)))
  {
    hide Mul, Row.Times, Row.Plus, RotationZ, RowOf;
    RotationLeft(Value(m), s, c);
    TurnRows(m, 0, 1, s, c);
  }

  function Shifted(a: real, b: real, c: real, d: real, x: real, y: real, z: real): real { d + (a * x + b * y + c * z) }

  lemma ShiftedRow(m: Mat, x: real, y: real, z: real)
    ensures m.x.Times(x).Plus(m.y.Times(y)).Plus(m.z.Times(z)).Plus(m.w) ==
      Row(Shifted(m.x.x, m.y.x, m.z.x, m.w.x, x, y, z), Shifted(m.x.y, m.y.y, m.z.y, m.w.y, x, y, z),
          Shifted(m.x.z, m.y.z, m.z.z, m.w.z, x, y, z), Shifted(m.x.w, m.y.w, m.z.w, m.w.w, x, y, z))
  {
    hide Row.Plus, Row.Times;
    TimesParts(m.x, x);
    TimesParts(m.y, y);
    TimesParts(m.z, z);
    FourRows(m.x.Times(x), m.y.Times(y), m.z.Times(z), m.w);
  }

  lemma FourRows(a: Row, b: Row, c: Row, d: Row)
    ensures a.Plus(b).Plus(c).Plus(d) ==
      Row(d.x + (a.x + b.x + c.x), d.y + (a.y + b.y + c.y), d.z + (a.z + b.z + c.z), d.w + (a.w + b.w + c.w))
  {
  }

  method TranslateRows(m: array2<real>, x: real, y: real, z: real)
    requires IsMtxF(m)
    modifies m
    ensures Value(m) == Mul(Translation(x, y, z), old(Value(m)))
  {
    hide Mul, Translation, Shifted, Row.Times, Row.Plus;
    TranslationLeft(Value(m), x, y, z);
    ShiftedRow(Value(m), x, y, z);
    for i := 0 to 4
      invariant forall p: nat, q: nat :: p < 4 && q < 4 && !(p == 3 && q < i) ==> m[p, q] == old(m[p, q])
      invariant forall q: nat :: q < i ==>
        m[3, q] == Shifted(old(m[0, q]), old(m[1, q]), old(m[2, q]), old(m[3, q]), x, y, z)
    {
      m[3, i] := Shifted(m[0, i], m[1, i], m[2, i], m[3, i], x, y, z);
    }
  }

  /* ----- columns ----- */

  method TimesColumn(m: array2<real>, j: nat, k: real)
    requires IsMtxF(m) && j < 4
    modifies m
    ensures forall p: nat, q: nat :: p < 4 && q < 4 ==> m[p, q] == if q == j then old(m[p, q]) * k else old(m[p, q])
  {
    m[0, j] := m[0, j] * k;
    m[1, j] := m[1, j] * k;
    m[2, j] := m[2, j] * k;
    m[3, j] := m[3, j] * k;
  }

  /** Scales by columns; a factor of 1 is passed over. */
  method ScaleColumns(m: array2<real>, x: real, y: real)
    requires IsMtxF(m)
    modifies m
    ensures Value(m) == Mul(old(Value(m)), Scale(x, y, 1.0))
  {
    hide Combine, Scale;
    ghost var a := Value(m);
    ScaleRight(a.x, x, y, 1.0);
    ScaleRight(a.y, x, y, 1.0);
    ScaleRight(a.z, x, y, 1.0);
    ScaleRight(a.w, x, y, 1.0);
    if x != 1.0 {
      TimesColumn(m, 0, x);
    }
    if y != 1.0 {
      TimesColumn(m, 1, y);
    }
  }

  /** Two entries of a row turn towards each other. */
  method TurnEntry(m: array2<real>, p: nat, i: nat, j: nat, s: real, c: real)
    requires IsMtxF(m) && i < 4 && j < 4 && i != j && p < 4
    modifies m
    ensures m[p, i] == MinusTurn(old(m[p, i]), old(m[p, j]), s, c) && m[p, j] == PlusTurn(old(m[p, j]), old(m[p, i]), s, c)
    ensures forall r: nat, q: nat :: r < 4 && q < 4 && !(r == p && q in {i, j}) ==> m[r, q] == old(m[r, q])
  {
    var a, b := m[p, i], m[p, j];
    m[p, i] := MinusTurn(a, b, s, c);
    m[p, j] := PlusTurn(b, a, s, c);
  }

  method TurnColumns(m: array2<real>, i: nat, j: nat, s: real, c: real)
    requires IsMtxF(m) && i < 4 && j < 4 && i != j
    modifies m
    ensures forall p: nat :: p < 4 ==>
      m[p, i] == MinusTurn(old(m[p, i]), old(m[p, j]), s, c) && m[p, j] == PlusTurn(old(m[p, j]), old(m[p, i]), s, c)
    ensures forall p: nat, q: nat :: p < 4 && q < 4 && q != i && q != j ==> m[p, q] == old(m[p, q])
  {
    hide PlusTurn, MinusTurn;
    TurnEntry(m, 0, i, j, s, c);
    TurnEntry(m, 1, i, j, s, c);
    TurnEntry(m, 2, i, j, s, c);
    TurnEntry(m, 3, i, j, s, c);
  }

  method RotateColumnsX(m: array2<real>, s: real, c: real)
    requires IsMtxF(m)
    modifies m
    ensures Value(m) == Mul(old(Value(m)), RotationX(s, c))
  {
    hide Mul, RotationX, PlusTurn, MinusTurn;
    AllRight(Value(m), s, c);
    TurnColumns(m, 1, 2, s, c);
  }

  method RotateColumnsY(m: array2<real>, s: real, c: real)
    requires IsMtxF(m)
    modifies m
    ensures Value(m) == Mul(old(Value(m)), RotationY(s, c))
  {
    hide Mul, RotationY, PlusTurn, MinusTurn;
    AllRight(Value(m), s, c);
    TurnColumns(m, 2, 0, s, c);
  }

  method RotateColumnsZ(m: array2<real>, s: real, c: real)
    requires IsMtxF(m)
    modifies m
    ensures Value(m) == Mul(old(Value(m)), RotationZ(s, c))
  {
    hide Mul, RotationZ, PlusTurn, MinusTurn;
    AllRight(Value(m), s, c);
    TurnColumns(m, 0, 1, s, c);
  }

  /** One row: nothing is done for a last entry of 0, and no product is taken for one of 1 in the last row. */
  method TranslateRow(m: array2<real>, i: nat, x: real, y: real, z: real)
    requires IsMtxF(m) && i < 4
    modifies m
    ensures RowOf(m, i) == Combine(old(RowOf(m, i)), Translation(x, y, z))
    ensures forall j: nat :: j < 4 && j != i ==> RowOf(m, j) == old(RowOf(m, j))
  {
    hide Combine, Translation;
    TranslationRight(RowOf(m, i), x, y, z);
    var temp := m[i, 3];
    if temp != 0.0 {
      if i < 3 || temp != 1.0 {
        m[i, 0] := m[i, 0] + temp * x;
        m[i, 1] := m[i, 1] + temp * y;
        m[i, 2] := m[i, 2] + temp * z;
      } else {
        m[i, 0] := m[i, 0] + x;
        m[i, 1] := m[i, 1] + y;
        m[i, 2] := m[i, 2] + z;
      }
    }
  }

  method TranslateColumns(m: array2<real>, x: real, y: real, z: real)
    requires IsMtxF(m)
    modifies m
    ensures Value(m) == Mul(old(Value(m)), Translation(x, y, z))
  {
    hide Combine, Translation;
    TranslateRow(m, 0, x, y, z);
    TranslateRow(m, 1, x, y, z);
    TranslateRow(m, 2, x, y, z);
    TranslateRow(m, 3, x, y, z);
  }

  /* ----- products ----- */

  /** One column of the product: the old column is kept aside. */
  method MultColumn(a: array2<real>, b: array2<real>, j: nat)
    requires IsMtxF(a) && IsMtxF(b) && a != b && j < 4
    modifies a
    ensures forall i: nat :: i < 4 ==>
      a[i, j] == Dot(RowOf(b, i), old(a[0, j]), old(a[1, j]), old(a[2, j]), old(a[3, j]))
    ensures forall p: nat, q: nat :: p < 4 && q < 4 && q != j ==> a[p, q] == old(a[p, q])
  {
    hide Dot;
    var tempX, tempY, tempZ, tempW := a[0, j], a[1, j], a[2, j], a[3, j];
    MultEntry(a, b, 0, j, tempX, tempY, tempZ, tempW);
    MultEntry(a, b, 1, j, tempX, tempY, tempZ, tempW);
    MultEntry(a, b, 2, j, tempX, tempY, tempZ, tempW);
    MultEntry(a, b, 3, j, tempX, tempY, tempZ, tempW);
  }

  method MultEntry(a: array2<real>, b: array2<real>, i: nat, j: nat, tempX: real, tempY: real, tempZ: real, tempW: real)
    requires IsMtxF(a) && IsMtxF(b) && a != b && i < 4 && j < 4
    modifies a
    ensures a[i, j] == Dot(RowOf(b, i), tempX, tempY, tempZ, tempW)
    ensures forall p: nat, q: nat :: p < 4 && q < 4 && !(p == i && q == j) ==> a[p, q] == old(a[p, q])
  {
    a[i, j] := b[i, 0] * tempX + b[i, 1] * tempY + b[i, 2] * tempZ + b[i, 3] * tempW;
  }

  /** The product of two different matrices replaces the first of them, as the right factor. */
  method Mult(a: array2<real>, b: array2<real>)
    requires IsMtxF(a) && IsMtxF(b) && a != b
    modifies a
    ensures Value(a) == Mul(Value(b), old(Value(a)))
  {
    hide Dot, Combine;
    CombineDots(RowOf(b, 0), Value(a));
    CombineDots(RowOf(b, 1), Value(a));
    CombineDots(RowOf(b, 2), Value(a));
    CombineDots(RowOf(b, 3), Value(a));
    MultColumn(a, b, 0);
    MultColumn(a, b, 1);
    MultColumn(a, b, 2);
    MultColumn(a, b, 3);
  }

  /* ----- points ----- */

  class Vec3f {
    var x: real
    var y: real
    var z: real

    constructor (x: real, y: real, z: real)
      ensures At() == Point(x, y, z)
    {
      this.x, this.y, this.z := x, y, z;
    }

    ghost function At(): Point
      reads this
    {
      Point(x, y, z)
    }
  }

  function Along(p: Point, a: real, b: real, c: real, d: real): real { p.x * a + p.y * b + p.z * c + d }

  lemma TransformEntries(p: Point, m: Mat)
    ensures Transform(p, m) == Point(Along(p, m.x.x, m.y.x, m.z.x, m.w.x), Along(p, m.x.y, m.y.y, m.z.y, m.w.y),
                                     Along(p, m.x.z, m.y.z, m.z.z, m.w.z))
  {
    hide Row.Plus, Row.Times;
    RowParts(m.w);
    TimesParts(m.x, p.x);
    TimesParts(m.y, p.y);
    TimesParts(m.z, p.z);
    TimesOne(m.w);
    PlusRow(m.x.x * p.x, m.x.y * p.x, m.x.z * p.x, m.x.w * p.x, m.y.x * p.y, m.y.y * p.y, m.y.z * p.y, m.y.w * p.y);
    PlusRow(m.x.x * p.x + m.y.x * p.y, m.x.y * p.x + m.y.y * p.y, m.x.z * p.x + m.y.z * p.y, m.x.w * p.x + m.y.w * p.y,
            m.z.x * p.z, m.z.y * p.z, m.z.z * p.z, m.z.w * p.z);
    PlusRow(m.x.x * p.x + m.y.x * p.y + m.z.x * p.z, m.x.y * p.x + m.y.y * p.y + m.z.y * p.z,
            m.x.z * p.x + m.y.z * p.y + m.z.z * p.z, m.x.w * p.x + m.y.w * p.y + m.z.w * p.z,
            m.w.x, m.w.y, m.w.z, m.w.w);
  }

  lemma TimesOne(r: Row)
    ensures r.Times(1.0) == r
  {
  }

  /** Source and destination can be the same. */
  method TransformPoint(dest: Vec3f, src: Vec3f, m: array2<real>)
    requires IsMtxF(m)
    modifies dest
    ensures dest.At() == Transform(old(src.At()), Value(m))
  {
    hide Transform, Combine;
    TransformEntries(src.At(), Value(m));
    var x, y, z := src.x, src.y, src.z;
    dest.x := x * m[0, 0] + y * m[1, 0] + z * m[2, 0] + m[3, 0];
    dest.y := x * m[0, 1] + y * m[1, 1] + z * m[2, 1] + m[3, 1];
    dest.z := x * m[0, 2] + y * m[1, 2] + z * m[2, 2] + m[3, 2];
  }

  /** As for a point at height 0; the height itself is left alone. */
  method TransformPoint2(dest: Vec3f, src: Vec3f, m: array2<real>)
    requires IsMtxF(m)
    modifies dest
    ensures var p := Transform(old(src.At()).(z := 0.0), Value(m)); dest.At() == p.(z := old(dest.z))
  {
    var x, y := src.x, src.y;
    dest.x := x * m[0, 0] + y * m[1, 0] + m[3, 0];
    dest.y := x * m[0, 1] + y * m[1, 1] + m[3, 1];
  }

  /** A point transformed by the product of two matrices, and one transformed by the two in turn, come out the same. */
  method ProductOrTwice(p: Vec3f, q: Vec3f, a: array2<real>, b: array2<real>)
    requires IsMtxF(a) && IsMtxF(b) && a != b && p != q && p.At() == q.At() && Affine(Value(b))
    modifies p, q, a
    ensures p.At() == q.At()
  {
    hide Transform, Mul, Value;
    ProductTransforms(Value(b));
    TransformPoint(q, q, b);
    TransformPoint(q, q, a);
    Mult(a, b);
    TransformPoint(p, p, a);
  }
}
