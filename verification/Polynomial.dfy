/**
  Polynomial evaluation (stringsperf/performance/poly.c, poly_naive.c) over the reals.

  `Poly` splits the coefficients into five interleaved lanes, evaluates each lane by Horner's
  rule in x^5 and recombines the lanes in a switch on what is left of the index. The recombination
  is right for degrees congruent to 0, 1 and 2 modulo 5 and departs from the polynomial for the
  other two residues and for degree 4; `Agrees` is the exact condition under which it is right.
*/
module Polynomial {

  function Pow(x: real, n: nat): real {
    if n == 0 then 1.0 else x * Pow(x, n - 1)
  }

  // The polynomial itself: the sum of a[k] * x^k over its first n coefficients.
  function Value(a: seq<real>, x: real, n: nat): real
    requires n <= |a|
  {
    if n == 0 then 0.0 else Value(a, x, n - 1) + a[n - 1] * Pow(x, n - 1)
  }

  // Horner's rule over a[j..]: the sum of a[k] * x^(k-j) for k from j on.
  function Tail(a: seq<real>, x: real, j: nat): real
    decreases |a| - j
  {
    if j >= |a| then 0.0 else a[j] + x * Tail(a, x, j + 1)
  }

  // One lane: every fifth coefficient from a[j] on, as a polynomial in y. `Lanes` lists the lanes
  // of every start j, the empty ones past the end of `a` included.
  function Lanes(a: seq<real>, y: real): (lanes: seq<real>)
    ensures IsLanes(lanes, a, y)
  {
    if a == [] then [0.0, 0.0, 0.0, 0.0, 0.0]
    else
      var rest := Lanes(a[1..], y);
      LanesExtend(rest, a, y, y * rest[4] + a[0]);
      [y * rest[4] + a[0]] + rest
  }

  lemma LanesExtend(rest: seq<real>, a: seq<real>, y: real, first: real)
    requires a != [] && IsLanes(rest, a[1..], y) && first == y * rest[4] + a[0]
    ensures IsLanes([first] + rest, a, y)
  {
    forall j | 0 <= j < |a| ensures LaneAt([first] + rest, a, y, j) {
      if j > 0 {
        assert LaneAt(rest, a[1..], y, j - 1);
      }
    }
  }

  ghost predicate IsLanes(lanes: seq<real>, a: seq<real>, y: real) {
    |lanes| == |a| + 5
    && (forall j :: |a| <= j < |lanes| ==> lanes[j] == 0.0)
    && (forall j {:trigger LaneAt(lanes, a, y, j)} :: 0 <= j < |a| ==> LaneAt(lanes, a, y, j))
  }

  ghost predicate LaneAt(lanes: seq<real>, a: seq<real>, y: real, j: int)
    requires |lanes| == |a| + 5
  {
    0 <= j < |a| && lanes[j] == y * lanes[j + 5] + a[j]
  }

  function Fourth(x: real): real { x * (x * (x * x)) }

  function Fifth(x: real): real { x * Fourth(x) }

  // Whether the value `Poly` returns is the polynomial's.
  predicate Agrees(a: seq<real>, x: real)
    requires |a| >= 5
  {
    LanesAgree(Lanes(a, Fifth(x)), a, x, x * x, x * (x * x), Fourth(x))
  }

  predicate LanesAgree(lanes: seq<real>, a: seq<real>, x: real, x2: real, x3: real, x4: real)
    requires |a| >= 5 && |lanes| == |a| + 5
  {
    var degree := |a| - 1;
    if degree == 4 then a[0] + a[1] + a[2] + a[3] + a[4] == x * a[1] + x2 * a[2] + x3 * a[3] + x4 * a[4]
    else if degree % 5 <= 2 then true
    else if degree % 5 == 3 then x == 0.0 || x == 1.0 || lanes[4] == lanes[5]
    else x == 0.0 || lanes[6] == 1.0 || lanes[1] == 0.0
  }

  // What `Poly` returns beyond the polynomial's value, in terms of the lanes and the powers of x.
  function LaneError(lanes: seq<real>, a: seq<real>, x: real, x2: real, x3: real, x4: real): real
    requires |a| >= 5 && |lanes| == |a| + 5
  {
    var degree := |a| - 1;
    if degree == 4 then a[0] + a[1] + a[2] + a[3] + a[4] - (x * a[1] + x2 * a[2] + x3 * a[3] + x4 * a[4])
    else if degree % 5 <= 2 then 0.0
    else if degree % 5 == 3 then (lanes[5] - lanes[4]) * x4 * (1.0 - x)
    else (lanes[6] - 1.0) * lanes[1] * x
  }

  function Error(a: seq<real>, x: real): real
    requires |a| >= 5
  {
    LaneError(Lanes(a, Fifth(x)), a, x, x * x, x * (x * x), Fourth(x))
  }

  // poly_naive.c:32-41
  method PolyNaive(a: seq<real>, x: real) returns (result: real)
    requires |a| >= 1
    ensures result == Value(a, x, |a|)
  {
    var degree := |a| - 1;
    result := a[0];
    var xpwr := x;
    var i := 1;
    while i <= degree
      invariant 1 <= i <= degree + 1
      invariant xpwr == Pow(x, i)
      invariant result == Value(a, x, i)
    {
      result := result + a[i] * xpwr;
      xpwr := x * xpwr;
      i := i + 1;
    }
  }

  // Horner's rule computes the polynomial.
  lemma {:induction false} HornerIsValue(a: seq<real>, x: real, n: nat)
    requires n <= |a|
    ensures Value(a, x, n) + Pow(x, n) * Tail(a, x, n) == Tail(a, x, 0)
  {
    if n > 0 {
      HornerIsValue(a, x, n - 1);
      HornerStep(Value(a, x, n - 1), a[n - 1], x, Pow(x, n - 1), Pow(x, n), Tail(a, x, n - 1), Tail(a, x, n),
          Tail(a, x, 0));
    }
  }

  lemma HornerStep(v: real, c: real, x: real, p: real, p1: real, t: real, t1: real, whole: real)
    requires v + p * t == whole && p1 == x * p && t == c + x * t1
    ensures v + c * p + p1 * t1 == whole
  {
    assert p * t == c * p + (x * p) * t1;
  }

  // The powers of x that poly.c:35-38 sets up.
  predicate Powers(x: real, x2: real, x3: real, x4: real, x5: real) {
    x2 == x * x && x3 == x * x2 && x4 == x * x3 && x5 == x * x4
  }

  // The five lanes, shifted back into place, make up the polynomial.
  lemma {:induction false} LanesMakeTail(lanes: seq<real>, a: seq<real>, x: real, x2: real, x3: real, x4: real,
                                         x5: real,
                                            j: nat, l0: real, l1: real, l2: real, l3: real, l4: real)
    requires IsLanes(lanes, a, x5) && Powers(x, x2, x3, x4, x5) && j <= |a|
    requires l0 == lanes[j] && l1 == lanes[j + 1] && l2 == lanes[j + 2] && l3 == lanes[j + 3] && l4 == lanes[j + 4]
    ensures l0 + x * l1 + x2 * l2 + x3 * l3 + x4 * l4 == Tail(a, x, j)
    decreases |a| - j
  {
    if j < |a| {
      var l5 := lanes[j + 5];
      LanesMakeTail(lanes, a, x, x2, x3, x4, x5, j + 1, l1, l2, l3, l4, l5);
      assert LaneAt(lanes, a, x5, j);
      ShiftLanes(x, x2, x3, x4, x5, l1, l2, l3, l4, l5, Tail(a, x, j + 1));
    }
  }

  lemma ShiftLanes(x: real, x2: real, x3: real, x4: real, x5: real, b: real, c: real, d: real, e: real, f: real,
                   t: real)
    requires Powers(x, x2, x3, x4, x5)
    requires b + x * c + x2 * d + x3 * e + x4 * f == t
    ensures x * b + x2 * c + x3 * d + x4 * e + x5 * f == x * t
  {
    Associate(x, x, c);
    Associate(x, x2, d);
    Associate(x, x3, e);
    Associate(x, x4, f);
    Spread(x, b, x * c, x2 * d, x3 * e, x4 * f);
  }

  lemma Associate(p: real, q: real, r: real)
    ensures p * (q * r) == (p * q) * r
  {
  }

  lemma Spread(x: real, b: real, c: real, d: real, e: real, f: real)
    ensures x * (b + c + d + e + f) == x * b + x * c + x * d + x * e + x * f
  {
  }

  // The polynomial as its constant term and the five lanes, each times its own power.
  lemma ValueByLanes(lanes: seq<real>, a: seq<real>, x: real, x2: real, x3: real, x4: real, x5: real)
    requires |a| >= 1 && IsLanes(lanes, a, x5) && Powers(x, x2, x3, x4, x5)
    ensures Value(a, x, |a|)
         == a[0] + x * lanes[1] + x2 * lanes[2] + x3 * lanes[3] + x4 * lanes[4] + x5 * lanes[5]
  {
    ValueIsTail(a, x);
    LanesMakeTail(lanes, a, x, x2, x3, x4, x5, 0, lanes[0], lanes[1], lanes[2], lanes[3], lanes[4]);
    FirstLane(lanes, a, x, x2, x3, x4, x5, Tail(a, x, 0));
  }

  lemma FirstLane(lanes: seq<real>, a: seq<real>, x: real, x2: real, x3: real, x4: real, x5: real, t: real)
    requires |a| >= 1 && IsLanes(lanes, a, x5)
    requires lanes[0] + x * lanes[1] + x2 * lanes[2] + x3 * lanes[3] + x4 * lanes[4] == t
    ensures t == a[0] + x * lanes[1] + x2 * lanes[2] + x3 * lanes[3] + x4 * lanes[4] + x5 * lanes[5]
  {
    assert LaneAt(lanes, a, x5, 0);
  }

  lemma ValueIsTail(a: seq<real>, x: real)
    ensures Value(a, x, |a|) == Tail(a, x, 0)
  {
    HornerIsValue(a, x, |a|);
  }

  lemma TopLanes(lanes: seq<real>, a: seq<real>, y: real)
    requires |a| >= 5 && IsLanes(lanes, a, y)
    ensures forall j :: |a| - 5 <= j < |a| ==> lanes[j] == a[j]
  {
    forall j | |a| - 5 <= j < |a| ensures lanes[j] == a[j] {
      assert LaneAt(lanes, a, y, j);
      assert lanes[j + 5] == 0.0;
    }
  }

  // The five-accumulator loop of poly.c:41-57, and the index it stops at.
  method Accumulate(a: seq<real>, x5: real, ghost lanes: seq<real>)
    returns (i: int, result1: real, result2: real, result3: real, result4: real, result5: real)
    requires |a| >= 5 && IsLanes(lanes, a, x5)
    ensures if |a| == 5 then i == -1 else i == (|a| - 1) % 5
    ensures result1 == lanes[i + 5] && result2 == lanes[i + 4] && result3 == lanes[i + 3]
    ensures result4 == lanes[i + 2] && result5 == lanes[i + 1]
  {
    var degree := |a| - 1;
    result1 := a[degree];
    result2 := a[degree - 1];
    result3 := a[degree - 2];
    result4 := a[degree - 3];
    result5 := a[degree - 4];
    i := degree - 5;
    TopLanes(lanes, a, x5);
    while i >= 5
      invariant i <= degree - 5 && (i >= 0 || degree == 4)
      invariant (degree - i) % 5 == 0
      invariant result1 == lanes[i + 5]
      invariant result2 == lanes[i + 4]
      invariant result3 == lanes[i + 3]
      invariant result4 == lanes[i + 2]
      invariant result5 == lanes[i + 1]
    {
      LaneIs(lanes, a, x5, i, i + 5, lanes[i], result1);
      LaneIs(lanes, a, x5, i - 1, i + 4, lanes[i - 1], result2);
      LaneIs(lanes, a, x5, i - 2, i + 3, lanes[i - 2], result3);
      LaneIs(lanes, a, x5, i - 3, i + 2, lanes[i - 3], result4);
      LaneIs(lanes, a, x5, i - 4, i + 1, lanes[i - 4], result5);
      result1 := x5 * result1 + a[i];
      result2 := x5 * result2 + a[i - 1];
      result3 := x5 * result3 + a[i - 2];
      result4 := x5 * result4 + a[i - 3];
      result5 := x5 * result5 + a[i - 4];
      i := i - 5;
    }
  }

  // The switch of poly.c:60-121, whatever the five powers are.
  method CleanUp(a: seq<real>, x: real, x2: real, x3: real, x4: real, x5: real, i: int,
                 r1: real, r2: real, r3: real, r4: real, r5: real) returns (result: real)
    requires |a| >= 5 && -1 <= i <= 4
    ensures result == Switched(a, x, x2, x3, x4, x5, i, r1, r2, r3, r4, r5)
  {
    var result1, result2, result3, result4, result5 := r1, r2, r3, r4, r5;
    if i == 0 {
      result1 := result1 * x5;
      result2 := result2 * x4;
      result3 := result3 * x3;
      result4 := result4 * x2;
      result5 := result5 * x;
    } else if i == 1 {
      result1 := x5 * result1 + a[1];
      result1 := result1 * x;
      result2 := result2 * x5;
      result3 := result3 * x4;
      result4 := result4 * x3;
      result5 := result5 * x2;
    } else if i == 2 {
      result1 := x5 * result1 + a[2];
      result1 := result1 * x2;
      result2 := x5 * result2 + a[1];
      result2 := result2 * x;
      result3 := result3 * x5;
      result4 := result4 * x4;
      result5 := result5 * x3;
    } else if i == 3 {
      result1 := x5 * result1 + a[3];
      result1 := result1 * x3;
      result2 := x5 * result2 + a[2];
      result2 := result2 * x2;
      result3 := x5 * result3 + a[1];
      result3 := result3 * x;
      result4 := result4 * x4;
      result5 := result5 * x5;
    } else if i == 4 {
      result1 := x5 * result1 + a[4];
      result1 := result1 * x4;
      result2 := x5 * result2 + a[3];
      result2 := result2 * x3;
      result3 := x5 * result3 + a[2];
      result3 := result3 * x2;
      result4 := result4 * (x5 * result4 + a[1]);
      result4 := result4 * x;
      result5 := result5 * x5;
    }
    result := a[0] + result1 + result2 + result3 + result4 + result5;
  }

  function Switched(a: seq<real>, x: real, x2: real, x3: real, x4: real, x5: real, i: int,
                    r1: real, r2: real, r3: real, r4: real, r5: real): real
    requires |a| >= 5 && -1 <= i <= 4
  {
    match i
    case 0 => a[0] + r1 * x5 + r2 * x4 + r3 * x3 + r4 * x2 + r5 * x
    case 1 => a[0] + (x5 * r1 + a[1]) * x + r2 * x5 + r3 * x4 + r4 * x3 + r5 * x2
    case 2 => a[0] + (x5 * r1 + a[2]) * x2 + (x5 * r2 + a[1]) * x + r3 * x5 + r4 * x4 + r5 * x3
    case 3 => a[0] + (x5 * r1 + a[3]) * x3 + (x5 * r2 + a[2]) * x2 + (x5 * r3 + a[1]) * x + r4 * x4 + r5 * x5
    case 4 => a[0] + (x5 * r1 + a[4]) * x4 + (x5 * r2 + a[3]) * x3 + (x5 * r3 + a[2]) * x2
              + r4 * (x5 * r4 + a[1]) * x + r5 * x5
    case _ => a[0] + r1 + r2 + r3 + r4 + r5
  }

  // poly.c:33-122
  method Poly(a: seq<real>, x: real) returns (result: real)
    requires |a| >= 5
    ensures result - Value(a, x, |a|) == Error(a, x)
    ensures result == Value(a, x, |a|) <==> Agrees(a, x)
  {
    var x2 := x * x;
    var x3 := x * x2;
    var x4 := x * x3;
    var x5 := x * x4;
    ghost var lanes := Lanes(a, x5);
    var i, result1, result2, result3, result4, result5 := Accumulate(a, x5, lanes);
    result := CleanUp(a, x, x2, x3, x4, x5, i, result1, result2, result3, result4, result5);
    ValueByLanes(lanes, a, x, x2, x3, x4, x5);
    SwitchedError(lanes, a, x, x2, x3, x4, x5, Value(a, x, |a|), i);
    ErrorByPowers(a, x, x2, x3, x4, x5);
    ErrorIsZero(a, x);
  }

  lemma ErrorByPowers(a: seq<real>, x: real, x2: real, x3: real, x4: real, x5: real)
    requires |a| >= 5 && Powers(x, x2, x3, x4, x5)
    ensures LaneError(Lanes(a, x5), a, x, x2, x3, x4) == Error(a, x)
  {
    assert x3 == x * (x * x);
    assert x4 == Fourth(x);
    assert x5 == Fifth(x);
    assert Lanes(a, x5) == Lanes(a, Fifth(x));
  }

  // How far the switch is from the polynomial when it is handed the five lanes.
  lemma SwitchedError(lanes: seq<real>, a: seq<real>, x: real, x2: real, x3: real, x4: real, x5: real, v: real, i: int)
    requires |a| >= 5 && IsLanes(lanes, a, x5) && x5 == x * x4
    requires v == a[0] + x * lanes[1] + x2 * lanes[2] + x3 * lanes[3] + x4 * lanes[4] + x5 * lanes[5]
    requires if |a| == 5 then i == -1 else i == (|a| - 1) % 5
    ensures Switched(a, x, x2, x3, x4, x5, i, lanes[i + 5], lanes[i + 4], lanes[i + 3], lanes[i + 2], lanes[i + 1]) - v
            == LaneError(lanes, a, x, x2, x3, x4)
  {
    match i
    case 0 => Residue0(lanes, a, x, x2, x3, x4, x5, v);
    case 1 => Residue1(lanes, a, x, x2, x3, x4, x5, v);
    case 2 => Residue2(lanes, a, x, x2, x3, x4, x5, v);
    case 3 => Residue3(lanes, a, x, x2, x3, x4, x5, v);
    case 4 => Residue4(lanes, a, x, x2, x3, x4, x5, v);
    case _ => Degree4(lanes, a, x, x2, x3, x4, x5, v);
  }

  lemma LaneIs(lanes: seq<real>, a: seq<real>, y: real, j: nat, k: nat, l: real, next: real)
    requires IsLanes(lanes, a, y) && j < |a| && k == j + 5 && l == lanes[j] && next == lanes[k]
    ensures l == y * next + a[j]
  {
    assert LaneAt(lanes, a, y, j);
  }

  lemma Residue0(lanes: seq<real>, a: seq<real>, x: real, x2: real, x3: real, x4: real, x5: real, v: real)
    requires |a| >= 5 && IsLanes(lanes, a, x5)
    requires v == a[0] + x * lanes[1] + x2 * lanes[2] + x3 * lanes[3] + x4 * lanes[4] + x5 * lanes[5]
    ensures Switched(a, x, x2, x3, x4, x5, 0, lanes[5], lanes[4], lanes[3], lanes[2], lanes[1]) == v
  {
    Arm0(a, x, x2, x3, x4, x5, lanes[1], lanes[2], lanes[3], lanes[4], lanes[5], v);
  }

  lemma Residue1(lanes: seq<real>, a: seq<real>, x: real, x2: real, x3: real, x4: real, x5: real, v: real)
    requires |a| >= 5 && IsLanes(lanes, a, x5)
    requires v == a[0] + x * lanes[1] + x2 * lanes[2] + x3 * lanes[3] + x4 * lanes[4] + x5 * lanes[5]
    ensures Switched(a, x, x2, x3, x4, x5, 1, lanes[6], lanes[5], lanes[4], lanes[3], lanes[2]) == v
  {
    LaneIs(lanes, a, x5, 1, 6, lanes[1], lanes[6]);
    Arm1(a, x, x2, x3, x4, x5, lanes[1], lanes[2], lanes[3], lanes[4], lanes[5], lanes[6], v);
  }

  lemma Residue2(lanes: seq<real>, a: seq<real>, x: real, x2: real, x3: real, x4: real, x5: real, v: real)
    requires |a| >= 5 && IsLanes(lanes, a, x5)
    requires v == a[0] + x * lanes[1] + x2 * lanes[2] + x3 * lanes[3] + x4 * lanes[4] + x5 * lanes[5]
    ensures Switched(a, x, x2, x3, x4, x5, 2, lanes[7], lanes[6], lanes[5], lanes[4], lanes[3]) == v
  {
    LaneIs(lanes, a, x5, 1, 6, lanes[1], lanes[6]);
    LaneIs(lanes, a, x5, 2, 7, lanes[2], lanes[7]);
    Arm2(a, x, x2, x3, x4, x5, lanes[1], lanes[2], lanes[3], lanes[4], lanes[5], lanes[6], lanes[7], v);
  }

  lemma Residue3(lanes: seq<real>, a: seq<real>, x: real, x2: real, x3: real, x4: real, x5: real, v: real)
    requires |a| >= 5 && IsLanes(lanes, a, x5)
    requires v == a[0] + x * lanes[1] + x2 * lanes[2] + x3 * lanes[3] + x4 * lanes[4] + x5 * lanes[5]
    requires x5 == x * x4
    ensures Switched(a, x, x2, x3, x4, x5, 3, lanes[8], lanes[7], lanes[6], lanes[5],
            lanes[4]) - v == (lanes[5] - lanes[4]) * x4 * (1.0 - x)
  {
    LaneIs(lanes, a, x5, 1, 6, lanes[1], lanes[6]);
    LaneIs(lanes, a, x5, 2, 7, lanes[2], lanes[7]);
    LaneIs(lanes, a, x5, 3, 8, lanes[3], lanes[8]);
    Arm3(a, x, x2, x3, x4, x5, lanes[1], lanes[2], lanes[3], lanes[4], lanes[5], lanes[6], lanes[7], lanes[8], v);
  }

  lemma Residue4(lanes: seq<real>, a: seq<real>, x: real, x2: real, x3: real, x4: real, x5: real, v: real)
    requires |a| >= 5 && IsLanes(lanes, a, x5)
    requires v == a[0] + x * lanes[1] + x2 * lanes[2] + x3 * lanes[3] + x4 * lanes[4] + x5 * lanes[5]
    ensures Switched(a, x, x2, x3, x4, x5, 4, lanes[9], lanes[8], lanes[7], lanes[6],
            lanes[5]) - v == (lanes[6] - 1.0) * lanes[1] * x
  {
    LaneIs(lanes, a, x5, 1, 6, lanes[1], lanes[6]);
    LaneIs(lanes, a, x5, 2, 7, lanes[2], lanes[7]);
    LaneIs(lanes, a, x5, 3, 8, lanes[3], lanes[8]);
    LaneIs(lanes, a, x5, 4, 9, lanes[4], lanes[9]);
    Arm4(a, x, x2, x3, x4, x5, lanes[1], lanes[2], lanes[3], lanes[4], lanes[5], lanes[6], lanes[7], lanes[8],
        lanes[9], v);
  }

  lemma Degree4(lanes: seq<real>, a: seq<real>, x: real, x2: real, x3: real, x4: real, x5: real, v: real)
    requires |a| == 5 && IsLanes(lanes, a, x5)
    requires v == a[0] + x * lanes[1] + x2 * lanes[2] + x3 * lanes[3] + x4 * lanes[4] + x5 * lanes[5]
    ensures Switched(a, x, x2, x3, x4, x5, -1, lanes[4], lanes[3], lanes[2], lanes[1], lanes[0]) - v
            == a[0] + a[1] + a[2] + a[3] + a[4] - (x * a[1] + x2 * a[2] + x3 * a[3] + x4 * a[4])
  {
    TopLanes(lanes, a, x5);
  }

  lemma Arm0(a: seq<real>, x: real, x2: real, x3: real, x4: real, x5: real,
             l1: real, l2: real, l3: real, l4: real, l5: real, v: real)
    requires |a| >= 5 && v == a[0] + x * l1 + x2 * l2 + x3 * l3 + x4 * l4 + x5 * l5
    ensures Switched(a, x, x2, x3, x4, x5, 0, l5, l4, l3, l2, l1) == v
  {
  }

  lemma Arm1(a: seq<real>, x: real, x2: real, x3: real, x4: real, x5: real,
             l1: real, l2: real, l3: real, l4: real, l5: real, l6: real, v: real)
    requires |a| >= 5 && v == a[0] + x * l1 + x2 * l2 + x3 * l3 + x4 * l4 + x5 * l5
    requires l1 == x5 * l6 + a[1]
    ensures Switched(a, x, x2, x3, x4, x5, 1, l6, l5, l4, l3, l2) == v
  {
    Same(x5 * l6 + a[1], l1, x);
  }

  lemma Arm2(a: seq<real>, x: real, x2: real, x3: real, x4: real, x5: real,
             l1: real, l2: real, l3: real, l4: real, l5: real, l6: real, l7: real, v: real)
    requires |a| >= 5 && v == a[0] + x * l1 + x2 * l2 + x3 * l3 + x4 * l4 + x5 * l5
    requires l1 == x5 * l6 + a[1] && l2 == x5 * l7 + a[2]
    ensures Switched(a, x, x2, x3, x4, x5, 2, l7, l6, l5, l4, l3) == v
  {
    Same(x5 * l6 + a[1], l1, x);
    Same(x5 * l7 + a[2], l2, x2);
  }

  lemma Arm3(a: seq<real>, x: real, x2: real, x3: real, x4: real, x5: real,
             l1: real, l2: real, l3: real, l4: real, l5: real, l6: real, l7: real, l8: real, v: real)
    requires |a| >= 5 && v == a[0] + x * l1 + x2 * l2 + x3 * l3 + x4 * l4 + x5 * l5
    requires l1 == x5 * l6 + a[1] && l2 == x5 * l7 + a[2] && l3 == x5 * l8 + a[3]
    requires x5 == x * x4
    ensures Switched(a, x, x2, x3, x4, x5, 3, l8, l7, l6, l5, l4) - v == (l5 - l4) * x4 * (1.0 - x)
  {
    SwappedLanes(x, x4, x5, l4, l5);
    Same(x5 * l6 + a[1], l1, x);
    Same(x5 * l7 + a[2], l2, x2);
    Same(x5 * l8 + a[3], l3, x3);
  }

  lemma Arm4(a: seq<real>, x: real, x2: real, x3: real, x4: real, x5: real,
             l1: real, l2: real, l3: real, l4: real, l5: real, l6: real, l7: real, l8: real, l9: real, v: real)
    requires |a| >= 5 && v == a[0] + x * l1 + x2 * l2 + x3 * l3 + x4 * l4 + x5 * l5
    requires l1 == x5 * l6 + a[1] && l2 == x5 * l7 + a[2] && l3 == x5 * l8 + a[3] && l4 == x5 * l9 + a[4]
    ensures Switched(a, x, x2, x3, x4, x5, 4, l9, l8, l7, l6, l5) - v == (l6 - 1.0) * l1 * x
  {
    SquaredLane(x, l6, l1);
    Same(x5 * l7 + a[2], l2, x2);
    Same(x5 * l8 + a[3], l3, x3);
    Same(x5 * l9 + a[4], l4, x4);
  }

  lemma Same(p: real, q: real, x: real)
    requires p == q
    ensures p * x == x * q
  {
  }

  lemma ErrorIsZero(a: seq<real>, x: real)
    requires |a| >= 5
    ensures Error(a, x) == 0.0 <==> Agrees(a, x)
  {
    FourthIsZero(x);
    LaneErrorIsZero(Lanes(a, Fifth(x)), a, x, x * x, x * (x * x), Fourth(x));
  }

  lemma LaneErrorIsZero(lanes: seq<real>, a: seq<real>, x: real, x2: real, x3: real, x4: real)
    requires |a| >= 5 && |lanes| == |a| + 5 && (x4 == 0.0 <==> x == 0.0)
    ensures LaneError(lanes, a, x, x2, x3, x4) == 0.0 <==> LanesAgree(lanes, a, x, x2, x3, x4)
  {
    if |a| > 5 && (|a| - 1) % 5 == 3 {
      Factors(lanes[5] - lanes[4], x4);
      Factors((lanes[5] - lanes[4]) * x4, 1.0 - x);
    } else if |a| > 5 && (|a| - 1) % 5 == 4 {
      Factors(lanes[6] - 1.0, lanes[1]);
      Factors((lanes[6] - 1.0) * lanes[1], x);
    }
  }

  lemma FourthIsZero(x: real)
    ensures Fourth(x) == 0.0 <==> x == 0.0
  {
    Factors(x, x);
    Factors(x, x * x);
    Factors(x, x * (x * x));
  }

  // The error of residue 3: lanes 4 and 5 carry each other's power.
  lemma SwappedLanes(x: real, x4: real, x5: real, l4: real, l5: real)
    requires x5 == x * x4
    ensures x4 * l5 + x5 * l4 - x4 * l4 - x5 * l5 == (l5 - l4) * x4 * (1.0 - x)
  {
  }

  lemma Factors(p: real, q: real)
    ensures p * q == 0.0 <==> p == 0.0 || q == 0.0
  {
  }

  // The error of residue 4: lane 1 is multiplied by the lane it was built from.
  lemma SquaredLane(x: real, l6: real, l1: real)
    ensures var d := (l6 - 1.0) * l1 * x;
      l6 * l1 * x - l1 * x == d && (d == 0.0 <==> x == 0.0 || l6 == 1.0 || l1 == 0.0)
  {
    Factors(l6 - 1.0, l1);
    Factors((l6 - 1.0) * l1, x);
  }

  lemma {:induction false} ZeroLane(lanes: seq<real>, a: seq<real>, y: real, j: nat)
    requires IsLanes(lanes, a, y) && j < |lanes|
    requires forall k :: j <= k < |a| ==> a[k] == 0.0
    ensures lanes[j] == 0.0
    decreases |a| - j
  {
    if j < |a| {
      assert LaneAt(lanes, a, y, j);
      ZeroLane(lanes, a, y, j + 5);
    }
  }

  // Every degree congruent to 3 or 4 has a polynomial that `Poly` gets wrong.
  lemma EveryBadDegreeFails(degree: nat) returns (a: seq<real>, x: real)
    requires degree >= 4 && degree % 5 >= 3
    ensures |a| == degree + 1 && !Agrees(a, x)
  {
    x := 2.0;
    if degree % 5 == 3 {
      a := seq(degree + 1, k => if k == 4 then 1.0 else 0.0);
      var lanes := Lanes(a, Fifth(x));
      ZeroLane(lanes, a, Fifth(x), 5);
      ZeroLane(lanes, a, Fifth(x), 9);
      assert LaneAt(lanes, a, Fifth(x), 4);
    } else {
      a := seq(degree + 1, k => if k == 1 then 1.0 else 0.0);
      var lanes := Lanes(a, Fifth(x));
      ZeroLane(lanes, a, Fifth(x), 6);
      assert LaneAt(lanes, a, Fifth(x), 1);
    }
  }
}
