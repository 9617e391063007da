/** Failure-compatible wrappers shared by every module, and the exceptions the
    modelled Python code can raise, one constructor per kind. */
module Common {

  /** A value that may be missing: a null cell of a table, or NaN where pandas
      reduces an empty selection. */
  datatype Option<+T> = None | Some(value: T)

  /** The exceptions raised by the modelled code. */
  datatype Error =
    | ZeroDivision                    // float division by zero (`T / dt` with `dt == 0`)
    | NegativeDimension               // a numpy array requested with a negative dimension
    | IndexOutOfBounds                // a numpy index past the end of an axis
    | UnsupportedModel(name: string)  // ValueError: unknown model name in the Monte Carlo driver
    | MissingKey(key: string)         // KeyError: a parameter absent from the parameter dictionary
    | InvalidPercentile               // percentile requested outside [0, 100]
    | LengthMismatch                  // ValueError: a column whose length differs from its index

  datatype Result<+T> = Ok(value: T) | Err(error: Error)
}

/** The elementary real functions the numerical code calls, and integer truncation. */
module RealMath {

  /** `numpy.exp` and `numpy.sqrt`, supplied by the caller. Nothing else about them
      is assumed than what `Lawful` states. */
  datatype Elementary = Elementary(exp: real -> real, sqrt: real -> real)

  /** The minimal laws of exp and sqrt on which the model relies. `sqrt` of a
      negative argument (NaN in numpy) is left unconstrained. */
  ghost predicate Lawful(m: Elementary) {
    && m.exp(0.0) == 1.0
    && (forall x :: m.exp(x) > 0.0)
    && (forall x :: 0.0 <= x ==> 0.0 <= m.sqrt(x) && m.sqrt(x) * m.sqrt(x) == x)
  }

  /** `exp` and `sqrt` give equal results on arguments the arithmetic shows
      equal (the solver does not always carry such equalities into the
      function's argument by itself). */
  lemma Congruent(m: Elementary, a: real, b: real)
    requires a == b
    ensures m.exp(a) == m.exp(b) && m.sqrt(a) == m.sqrt(b)
  {
  }

  /** Two non-negative reals with equal squares are equal. */
  lemma SquareInjective(r: real, a: real)
    requires 0.0 <= r && 0.0 <= a && r * r == a * a
    ensures r == a
  {
    var d := r + a;
    if d != 0.0 {
      var p := (r - a) * d;
      assert p == r * r - a * a == 0.0;
      assert r - a == p / d;
    }
  }

  /** The square root of a non-negative square is the base. */
  lemma SqrtOfSquare(m: Elementary, a: real)
    requires Lawful(m)
    requires 0.0 <= a
    ensures m.sqrt(a * a) == a
  {
    SquareInjective(m.sqrt(a * a), a);
  }

  lemma ScaleAtMostOne(t: real, d: real)
    requires 0.0 <= t <= 1.0 && 0.0 <= d
    ensures 0.0 <= t * d <= d
  {
    assert 0.0 <= (1.0 - t) * d;
  }

  lemma ScaleMonotone(t1: real, t2: real, d: real)
    requires t1 <= t2 && 0.0 <= d
    ensures t1 * d <= t2 * d
  {
    assert 0.0 <= (t2 - t1) * d;
  }

  lemma DivideBounds(s: real, n: real, lo: real, hi: real)
    requires 0.0 < n && n * lo <= s <= n * hi
    ensures lo <= s / n <= hi
  {
    assert s / n - lo == (s - n * lo) / n;
    assert hi - s / n == (n * hi - s) / n;
  }

  lemma DivideAbove(s: real, n: real, lo: real)
    requires 0.0 < n && n * lo < s
    ensures lo < s / n
  {
    assert s / n - lo == (s - n * lo) / n;
  }

  /** Python's `int()` applied to a float: truncation toward zero. */
  function Trunc(q: real): (n: int)
    ensures 0.0 <= q ==> 0 <= n && n as real <= q < n as real + 1.0
    ensures q < 0.0 ==> n <= 0 && q <= n as real < q + 1.0
  {
    if 0.0 <= q then q.Floor else -((-q).Floor)
  }

  /** `max(a, b)`. */
  function Max(a: real, b: real): (r: real) {
    if a < b then b else a
  }
}
