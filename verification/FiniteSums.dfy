/** Sums of a real-valued function over a finite set, in no particular order. */
module FiniteSums {

  ghost function Sum<T>(s: set<T>, f: T -> real): real
  {
    if s == {} then 0.0
    else
      var x :| x in s;
      f(x) + Sum(s - {x}, f)
  }

  /** Any element can be taken out first, so the sum does not depend on the order. */
  lemma {:induction false} SumTakeOut<T>(s: set<T>, x: T, f: T -> real)
    requires x in s
    ensures Sum(s, f) == f(x) + Sum(s - {x}, f)
  {
    var y :| y in s && Sum(s, f) == f(y) + Sum(s - {y}, f);
    if y != x {
      SumTakeOut(s - {y}, x, f);
      SumTakeOut(s - {x}, y, f);
      assert s - {y} - {x} == s - {x} - {y};
    }
  }

  lemma {:induction false} SumInsert<T>(s: set<T>, x: T, f: T -> real)
    requires x !in s
    ensures Sum(s + {x}, f) == f(x) + Sum(s, f)
  {
    SumTakeOut(s + {x}, x, f);
    assert s + {x} - {x} == s;
  }

  lemma {:induction false} SumCongruent<T>(s: set<T>, f: T -> real, g: T -> real)
    requires forall x :: x in s ==> f(x) == g(x)
    ensures Sum(s, f) == Sum(s, g)
  {
    if s != {} {
      var x :| x in s;
      SumTakeOut(s, x, f);
      SumTakeOut(s, x, g);
      SumCongruent(s - {x}, f, g);
    }
  }

  lemma {:induction false} SumZero<T>(s: set<T>, f: T -> real)
    requires forall x :: x in s ==> f(x) == 0.0
    ensures Sum(s, f) == 0.0
  {
    if s != {} {
      var x :| x in s;
      SumTakeOut(s, x, f);
      SumZero(s - {x}, f);
    }
  }

  lemma {:induction false} SumAdd<T>(s: set<T>, f: T -> real, g: T -> real, h: T -> real)
    requires forall x :: x in s ==> h(x) == f(x) + g(x)
    ensures Sum(s, h) == Sum(s, f) + Sum(s, g)
  {
    if s != {} {
      var x :| x in s;
      SumTakeOut(s, x, f);
      SumTakeOut(s, x, g);
      SumTakeOut(s, x, h);
      SumAdd(s - {x}, f, g, h);
    }
  }

  /** Multiplication under a name, so that proofs about sums need no nonlinear arithmetic. */
  function Times(p: real, q: real): real { p * q }

  lemma TimesZero(p: real)
    ensures Times(p, 0.0) == 0.0 && Times(0.0, p) == 0.0
  {
  }

  lemma TimesRegroup(p: real, q: real, s: real)
    ensures Times(Times(p, q), s) == Times(p, Times(q, s))
  {
  }

  lemma TimesCommute(p: real, q: real)
    ensures Times(p, q) == Times(q, p)
  {
  }

  lemma TimesAdd(c: real, p: real, q: real)
    ensures Times(c, p + q) == Times(c, p) + Times(c, q)
  {
  }

  lemma {:induction false} SumScale<T>(s: set<T>, c: real, f: T -> real, h: T -> real)
    requires forall x :: x in s ==> h(x) == Times(c, f(x))
    ensures Sum(s, h) == Times(c, Sum(s, f))
  {
    if s == {} {
      TimesZero(c);
    } else {
      var x :| x in s;
      SumTakeOut(s, x, f);
      SumTakeOut(s, x, h);
      SumScale(s - {x}, c, f, h);
      TimesAdd(c, f(x), Sum(s - {x}, f));
    }
  }

  /** A sum over t equals a sum over s when s goes one-to-one into t, and the rest of t counts for nothing. */
  lemma {:induction false} SumReindex<S(!new), T(!new)>(s: set<S>, t: set<T>, move: S -> T, f: S -> real, g: T -> real)
    requires forall x :: x in s ==> move(x) in t && g(move(x)) == f(x)
    requires forall x, y :: x in s && y in s && move(x) == move(y) ==> x == y
    requires forall z :: z in t ==> g(z) == 0.0 || exists x :: x in s && move(x) == z
    ensures Sum(t, g) == Sum(s, f)
  {
    if s == {} {
      SumZero(t, g);
    } else {
      var x :| x in s;
      SumTakeOut(s, x, f);
      SumTakeOut(t, move(x), g);
      SumReindex(s - {x}, t - {move(x)}, move, f, g);
    }
  }

  ghost function Row<S, T>(cell: (S, T) -> real, x: S): T -> real { (y: T) => cell(x, y) }

  ghost function Column<S, T>(cell: (S, T) -> real, y: T): S -> real { (x: S) => cell(x, y) }

  /** Interchange of a double sum, written with the row sums and the column sums as functions. */
  lemma {:induction false} SumSwap<S, T>(s: set<S>, t: set<T>, cell: (S, T) -> real, row: S -> real, column: T -> real)
    requires forall x :: x in s ==> row(x) == Sum(t, Row(cell, x))
    requires forall y :: y in t ==> column(y) == Sum(s, Column(cell, y))
    ensures Sum(s, row) == Sum(t, column)
  {
    if s == {} {
      SumZero(t, column);
    } else {
      var x :| x in s;
      var rest := s - {x};
      var restColumn := (y: T) => Sum(rest, Column(cell, y));
      SumTakeOut(s, x, row);
      SumSwap(rest, t, cell, row, restColumn);
      forall y | y in t ensures column(y) == Row(cell, x)(y) + restColumn(y) {
        SumTakeOut(s, x, Column(cell, y));
      }
      SumAdd(t, Row(cell, x), restColumn, column);
    }
  }
}
