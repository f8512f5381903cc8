/** Step D3 of Program D: guessing one quotient digit from the leading digits. */
module Estimate {
  import opened Words
  import opened Digits

  /** A window W of the dividend and the divisor V, split after their leading digits. */
  ghost predicate Leading(W: int, V: int, u0: int, u1: int, u2: int, v1: int, v2: int, P: int) {
    && P > 0 && 0 <= u0 <= v1 < B && 0 <= u1 < B && 0 <= u2 < B && 0 <= v2 < B && B / 2 <= v1
    && (v1 * B + v2) * P <= V < (v1 * B + v2 + 1) * P
    && ((u0 * B + u1) * B + u2) * P <= W < ((u0 * B + u1) * B + u2 + 1) * P
    && W < V * B
  }

  /** qhat and rhat divide the two leading digits, and qhat is not below the true digit. */
  ghost predicate NotTooSmall(qhat: int, rhat: int, W: int, V: int, u0: int, u1: int, v1: int) {
    qhat >= 0 && rhat >= 0 && qhat * v1 + rhat == u0 * B + u1 && W < (qhat + 1) * V
  }

  lemma StartsAbove(qhat: int, rhat: int, W: int, V: int, u0: int, u1: int, u2: int, v1: int, v2: int, P: int)
    requires Leading(W, V, u0, u1, u2, v1, v2, P)
    requires qhat * v1 + rhat == u0 * B + u1 && 0 <= rhat < v1 && qhat >= 0
    ensures W < (qhat + 1) * V
  {
    // W < (u0*B + u1 + 1) * B*P <= (qhat + 1) * v1 * B*P <= (qhat + 1) * V
    var q1 := qhat + 1;
    assert u0 * B + u1 + 1 <= q1 * v1;
    assert (u0 * B + u1) * B + u2 + 1 <= q1 * v1 * B;
    MulMono((u0 * B + u1) * B + u2 + 1, q1 * v1 * B, P);
    assert q1 * v1 * B * P == q1 * (v1 * B * P);
    assert v1 * B * P <= V by { MulMono(v1 * B, v1 * B + v2, P); }
    MulMono(v1 * B * P, V, q1);
    assert q1 * (v1 * B * P) == (v1 * B * P) * q1;
  }

  /** The test that makes qhat smaller shows that it was too large. */
  lemma TestFails(qhat: int, rhat: int, W: int, V: int, u0: int, u1: int, u2: int, v1: int, v2: int, P: int)
    requires Leading(W, V, u0, u1, u2, v1, v2, P)
    requires qhat * v1 + rhat == u0 * B + u1 && qhat >= 0
    requires v2 * qhat > rhat * B + u2
    ensures W < qhat * V
  {
    assert qhat * (v1 * B + v2) == (u0 * B + u1 - rhat) * B + v2 * qhat by {
      assert qhat * (v1 * B + v2) == (qhat * v1) * B + v2 * qhat;
    }
    MulMono((u0 * B + u1) * B + u2 + 1, qhat * (v1 * B + v2), P);
    assert qhat * (v1 * B + v2) * P == qhat * ((v1 * B + v2) * P);
    MulMono((v1 * B + v2) * P, V, qhat);
    assert qhat * ((v1 * B + v2) * P) == ((v1 * B + v2) * P) * qhat;
  }

  /** Once the test succeeds, qhat is at most one too large. */
  lemma TestHolds(qhat: int, rhat: int, W: int, V: int, u0: int, u1: int, u2: int, v1: int, v2: int, P: int)
    requires Leading(W, V, u0, u1, u2, v1, v2, P)
    requires qhat * v1 + rhat == u0 * B + u1 && 0 <= qhat < B
    requires v2 * qhat <= rhat * B + u2
    ensures (qhat - 1) * V <= W
  {
    assert qhat * (v1 * B + v2) <= (u0 * B + u1) * B + u2 by {
      assert qhat * (v1 * B + v2) == (qhat * v1) * B + v2 * qhat;
    }
    MulMono(qhat * (v1 * B + v2), (u0 * B + u1) * B + u2, P);
    assert qhat * (v1 * B + v2) * P == ((v1 * B + v2) * P) * qhat;
    MulMono(V, (v1 * B + v2 + 1) * P, qhat);
    assert ((v1 * B + v2 + 1) * P) * qhat == ((v1 * B + v2) * P) * qhat + qhat * P;
    assert qhat * P <= B * P by { MulMono(qhat, B, P); }
    assert B * P <= V by { MulMono(B, v1 * B + v2, P); }
    assert (qhat - 1) * V == V * qhat - V;
  }

  /** The first guess: the quotient of the two leading digits by the divisor's leading digit. */
  lemma FirstGuess(nn: int, W: int, V: int, u0: int, u1: int, u2: int, v1: int, v2: int, P: int)
    requires Leading(W, V, u0, u1, u2, v1, v2, P) && nn == u0 * B + u1 && u0 < v1
    ensures 0 <= nn / v1 < B && 0 <= nn % v1 < v1 && NotTooSmall(nn / v1, nn % v1, W, V, u0, u1, v1)
  {
    var q, r := nn / v1, nn % v1;
    assert q * v1 + r == nn && 0 <= r < v1;
    if q >= B { MulMono(B, q, v1); }
    if q < 0 { MulMono(q, -1, v1); }
    StartsAbove(q, r, W, V, u0, u1, u2, v1, v2, P);
  }

  /** The guess B - 1 when the leading digits are equal. */
  lemma LargestGuess(W: int, V: int, u0: int, u1: int, u2: int, v1: int, v2: int, P: int)
    requires Leading(W, V, u0, u1, u2, v1, v2, P) && u0 == v1
    ensures NotTooSmall(B - 1, u1 + v1, W, V, u0, u1, v1)
  {
  }

  lemma NextGuess(qhat: int, rhat: int, W: int, V: int, u0: int, u1: int, u2: int, v1: int, v2: int, P: int)
    requires Leading(W, V, u0, u1, u2, v1, v2, P) && NotTooSmall(qhat, rhat, W, V, u0, u1, v1)
    requires v2 * qhat > rhat * B + u2
    ensures NotTooSmall(qhat - 1, rhat + v1, W, V, u0, u1, v1)
  {
    TestFails(qhat, rhat, W, V, u0, u1, u2, v1, v2, P);
    assert W >= 0 by { MulMono(0, (u0 * B + u1) * B + u2, P); }
    assert qhat > 0;
    assert (qhat - 1) * v1 == qhat * v1 - v1;
  }

  lemma LargeRest(qhat: int, rhat: int, u2: int, v2: int)
    requires 0 <= qhat < B && rhat >= B && 0 <= v2 < B && u2 >= 0
    ensures v2 * qhat <= rhat * B + u2
  {
    DigitProduct(v2, qhat);
  }

  /** The estimate is the true digit or one more; at most two corrections are made. */
  method QHat(u0: int, u1: int, u2: int, v1: int, v2: int, ghost W: int, ghost V: int, ghost P: int)
      returns (qhat: int, ghost corrections: nat)
    requires Leading(W, V, u0, u1, u2, v1, v2, P)
    ensures 0 <= qhat < B
    ensures (qhat - 1) * V <= W < (qhat + 1) * V
    ensures corrections <= 2
  {
    var rhat;
    var test := true;
    corrections := 0;
    if u0 == v1 {
      qhat := B;
      rhat := u1;
      qhat := qhat - 1;
      rhat := rhat + v1;
      test := rhat < B;
      corrections := 1;
      LargestGuess(W, V, u0, u1, u2, v1, v2, P);
    } else {
      var nn := Combine(u0, u1);
      qhat := nn / v1;
      rhat := nn % v1;
      FirstGuess(nn, W, V, u0, u1, u2, v1, v2, P);
    }
    while test && Product(v2, qhat) > Combine(rhat, u2)
      invariant 0 <= qhat < B && NotTooSmall(qhat, rhat, W, V, u0, u1, v1)
      invariant test <==> rhat < B
      invariant rhat >= corrections * (B / 2) && corrections <= 2
      decreases qhat
    {
      NextGuess(qhat, rhat, W, V, u0, u1, u2, v1, v2, P);
      qhat := qhat - 1;
      rhat := rhat + v1;
      test := rhat < B;
      corrections := corrections + 1;
    }
    if !test { LargeRest(qhat, rhat, u2, v2); }
    TestHolds(qhat, rhat, W, V, u0, u1, u2, v1, v2, P);
  }
}
